/** The registry's value types and its etcd key layout. */
module Registry {
  import opened Wrappers
  import opened Text

  // Timestamps are integers; the zero time.Time is 0.
  type Time = int

  datatype ServiceInstance = ServiceInstance(
    id: string,
    name: string,
    address: string,
    hostname: string,
    metadata: map<string, string>,
    startedAt: Time,
    lastSeen: Time,
    dataPlaneStartedAt: Time,
    dataPlaneGeneration: string)

  // ---------------------------------------------------------------- keyspace

  /** The etcd key layout <prefix>/<service>/<id>, for any prefix. */
  datatype Keyspace = Keyspace(prefix: string) {
    function ServicesPrefix(): string {
      prefix + "/"
    }

    function ServicePrefix(service: string): string {
      ServicesPrefix() + Trim(TrimSpace(service), SLASH) + "/"
    }

    function ServiceKey(service: string, id: string): string {
      ServicePrefix(service) + Trim(TrimSpace(id), SLASH)
    }

    function ServiceFromKey(key: string): Option<string> {
      var rest := TrimPrefix(key, ServicesPrefix());
      if rest == key || rest == "" then None
      else
        var service := Head(rest);
        if service == "" then None else Some(service)
    }
  }

  function TrimPrefix(s: string, prefix: string): string {
    if prefix <= s then s[|prefix|..] else s
  }

  /** The part of `s` before its first slash, as strings.Cut returns it. */
  function Head(s: string): string {
    if s == "" || s[0] == '/' then "" else [s[0]] + Head(s[1..])
  }

  predicate SlashFree(s: string) {
    '/' !in s
  }

  lemma {:induction false} HeadStops(s: string, rest: string)
    requires SlashFree(s)
    ensures Head(s + "/" + rest) == s
  {
    var whole := s + "/" + rest;
    if s != "" {
      assert whole[1..] == s[1..] + "/" + rest;
      HeadStops(s[1..], rest);
    }
  }

  lemma SlashFreeTrims(s: string)
    requires SlashFree(s)
    ensures Trim(s, SLASH) == s
  {
    TrimFixes(s, SLASH);
  }

  /**
   For slash-free service names, the prefix of one service covers a key of another exactly when
   they are the same service: prefix reads and prefix watches never see a foreign instance.
   */
  lemma PrefixDisjoint(k: Keyspace, watched: string, owner: string, id: string)
    requires SlashFree(TrimSpace(watched)) && SlashFree(TrimSpace(owner))
    ensures k.ServicePrefix(watched) <= k.ServiceKey(owner, id) <==> TrimSpace(watched) == TrimSpace(owner)
  {
    var w, o := TrimSpace(watched), TrimSpace(owner);
    SlashFreeTrims(w);
    SlashFreeTrims(o);
    var prefix, key := k.ServicePrefix(watched), k.ServiceKey(owner, id);
    var tail := Trim(TrimSpace(id), SLASH);
    var n := |k.ServicesPrefix()|;
    assert prefix[n..] == w + "/";
    assert key[n..] == o + "/" + tail;
    if prefix <= key {
      assert key[|prefix|..] == key[n..][|w| + 1..];
      var rest := key[|prefix|..];
      assert key == prefix + rest;
      assert key[n..] == w + "/" + rest;
      HeadStops(w, rest);
      HeadStops(o, tail);
    }
    if w == o {
      assert key == prefix + tail;
    }
  }

  lemma LetterStays(c: char)
    requires c in {'a', '1'}
    ensures Trim(TrimSpace([c]), SLASH) == [c] && TrimSpace([c]) == [c]
  {
    hide Trim;
    TrimFixes([c], WHITESPACE);
    TrimFixes([c], SLASH);
  }

  lemma SlashedStays()
    ensures Trim(TrimSpace("a/b"), SLASH) == "a/b" && TrimSpace("a/b") == "a/b"
  {
    hide Trim;
    TrimFixes("a/b", WHITESPACE);
    TrimFixes("a/b", SLASH);
  }

  /** A name with a slash does break that separation: service "a" would read the instances of "a/b". */
  lemma PrefixOverlap(k: Keyspace)
    ensures k.ServicePrefix("a") <= k.ServiceKey("a/b", "1")
    ensures TrimSpace("a") != TrimSpace("a/b")
  {
    hide Trim, TrimSpace;
    LetterStays('a');
    LetterStays('1');
    SlashedStays();
    assert k.ServiceKey("a/b", "1") == k.ServicePrefix("a") + "b/1";
  }

  /** The key of a plain name and id: the prefix, the name and the id, with slashes between. */
  lemma KeyIs(k: Keyspace, service: string, id: string)
    requires SlashFree(service) && Trimmed(service, WHITESPACE)
    requires Trimmed(id, WHITESPACE) && Trimmed(id, SLASH)
    ensures k.ServiceKey(service, id) == k.prefix + "/" + service + "/" + id
    ensures k.ServicePrefix(service) == k.prefix + "/" + service + "/"
  {
    hide Trim;
    TrimFixes(service, WHITESPACE);
    TrimFixes(id, WHITESPACE);
    TrimFixes(id, SLASH);
    SlashFreeTrims(service);
  }

  /** The service name can be read back from any key written for it. */
  lemma ServiceFromKeyRoundTrip(k: Keyspace, service: string, id: string)
    requires SlashFree(TrimSpace(service)) && !Blank(service)
    ensures k.ServiceFromKey(k.ServiceKey(service, id)) == Some(TrimSpace(service))
  {
    var s := TrimSpace(service);
    SlashFreeTrims(s);
    var tail := Trim(TrimSpace(id), SLASH);
    var key := k.ServiceKey(service, id);
    assert key == k.ServicesPrefix() + (s + "/" + tail);
    assert key[|k.ServicesPrefix()|..] == s + "/" + tail;
    HeadStops(s, tail);
  }

  /** Within one service, two registrations share a key exactly when their ids trim to the same text. */
  lemma ServiceKeyInjective(k: Keyspace, service: string, id: string, other: string)
    ensures k.ServiceKey(service, id) == k.ServiceKey(service, other)
       <==> Trim(TrimSpace(id), SLASH) == Trim(TrimSpace(other), SLASH)
  {
    var p := k.ServicePrefix(service);
    assert k.ServiceKey(service, id)[|p|..] == Trim(TrimSpace(id), SLASH);
    assert k.ServiceKey(service, other)[|p|..] == Trim(TrimSpace(other), SLASH);
  }
}
