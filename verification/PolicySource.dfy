/**
 The source policy: where runtime config is loaded from, its canonical form, and the two-line text
 in which one process publishes it for the others. Of YAML only plain scalars on lines of their own
 are read; any other text is an error here.
 */
module PolicySource {
  import opened Wrappers
  import opened Text

  const DEFAULT_RUNTIME_KEY := "configs/runtime.yaml"
  const DEFAULT_ENDPOINT := "127.0.0.1:2379"
  const CONFIG_PREFIX := "/runtime/config"

  datatype Source = Source(provider: string, root: string, key: string, endpoints: seq<string>, prefix: string)

  // ---------------------------------------------------------------- canonical form

  function CleanPrefix(prefix: string, fallback: string): string {
    if Blank(prefix) then fallback else "/" + Trim(TrimSpace(prefix), SLASH)
  }

  function CanonicalProvider(provider: string): string {
    var p := Lower(TrimSpace(provider));
    if p == "" then "file" else p
  }

  /** Source.Normalize. */
  function Normalize(s: Source): Source {
    var provider := CanonicalProvider(s.provider);
    var known := provider == "file" || provider == "etcd";
    var key := TrimSpace(s.key);
    Source(provider, s.root, if known && key == "" then DEFAULT_RUNTIME_KEY else key,
           if provider == "etcd" && s.endpoints == [] then [DEFAULT_ENDPOINT] else s.endpoints,
           if provider == "etcd" then CleanPrefix(s.prefix, CONFIG_PREFIX) else s.prefix)
  }

  /** mergeFallback; the root is not carried over. */
  function MergeFallback(s: Source, fallback: Source): Source {
    Source(if s.provider == "" then fallback.provider else s.provider,
           s.root,
           if s.key == "" then fallback.key else s.key,
           if s.endpoints == [] then fallback.endpoints else s.endpoints,
           if s.prefix == "" then fallback.prefix else s.prefix)
  }

  // ---------------------------------------------------------------- reading and writing

  // What ends a line, and what separates tokens within one.
  const BREAKS: set<char> := {'\n', '\r', '\U{0085}', '\U{2028}', '\U{2029}'}
  const GAPS: set<char> := {' ', '\t'}

  // Characters that no plain scalar begins with, and the words that stand for no value.
  const INDICATORS: set<char> := {
    ',', '[', ']', '{', '}', '#', '&', '*', '!', '|', '>', '\'', '"', '%', '@', '`'
  }
  const NULLS: set<string> := {"", "~", "null", "Null", "NULL"}

  function Line(name: string, value: string): string {
    name + ": " + value
  }

  /** encodePolicySource. */
  function Encode(s: Source): string {
    Line("provider", Normalize(s).provider) + "\n" + (Line("key", Normalize(s).key) + "\n")
  }

  /** The first colon that ends a mapping key. */
  function ColonAt(s: string): (i: int)
    ensures -1 <= i < |s|
  {
    if s == "" then -1
    else if s[0] == ':' && (|s| == 1 || s[1] in GAPS) then 0
    else if ColonAt(s[1..]) == -1 then -1 else ColonAt(s[1..]) + 1
  }

  /** Where a comment starts: a hash after a gap; the length if there is none. */
  function CommentAt(s: string): (i: nat)
    ensures i <= |s|
  {
    if |s| < 2 then |s|
    else if s[0] in GAPS && s[1] == '#' then 1
    else 1 + CommentAt(s[1..])
  }

  predicate StartsToken(v: string)
    requires v != ""
  {
    v[0] in INDICATORS || (v[0] in {'-', '?', ':'} && (|v| == 1 || v[1] in GAPS))
  }

  /** The value of the text behind a colon; a null reads as the empty string. */
  function Scalar(raw: string): Option<string> {
    var v := Trim(raw[..CommentAt(raw)], GAPS);
    if v in NULLS then Some("")
    else if StartsToken(v) || ColonAt(v) != -1 then None
    else Some(v)
  }

  predicate Unbroken(s: string) {
    forall i | 0 <= i < |s| :: s[i] !in BREAKS
  }

  /** The characters that a YAML stream may contain: section 5.1 of YAML 1.2. */
  predicate Printable(c: char) {
    || c in {'\t', '\n', '\r', '\U{0085}'}
    || ' ' <= c <= '~' || '\U{00A0}' <= c <= '\U{FFFD}' || '\U{10000}' <= c
  }

  predicate Legible(s: string) {
    forall i | 0 <= i < |s| :: Printable(s[i])
  }

  /** Strings that can stand in a line as they are. */
  predicate Plain(v: string) {
    && Legible(v) && Unbroken(v) && v !in NULLS && !StartsToken(v) && ColonAt(v) == -1
    && Trimmed(v, GAPS) && CommentAt(" " + v) == |v| + 1
  }

  function BreakAt(text: string): (i: nat)
    ensures i <= |text|
    ensures Unbroken(text[..i]) && (i < |text| ==> text[i] in BREAKS)
  {
    if text == "" || text[0] in BREAKS then 0
    else
      var i := BreakAt(text[1..]);
      assert text[..1 + i] == [text[0]] + text[1..][..i];
      1 + i
  }

  function Lines(text: string): seq<string> {
    var i := BreakAt(text);
    if i < |text| then [text[..i]] + Lines(text[i + 1..])
    else if text == "" then [] else [text]
  }

  /** A block mapping with one entry a line; None for anything else. */
  function Entries(lines: seq<string>): Option<map<string, string>> {
    if lines == [] then Some(map[])
    else
      var init := Entries(lines[..|lines| - 1]);
      var line := lines[|lines| - 1];
      var colon := ColonAt(line);
      if init.None? || colon == -1 || line[..colon] in init.value || Scalar(line[colon + 1..]).None? then None
      else Some(init.value[line[..colon] := Scalar(line[colon + 1..]).value])
  }

  function Field(entries: map<string, string>, name: string): string {
    if name in entries then entries[name] else ""
  }

  /** decodePolicySource; a character that YAML forbids anywhere in the text makes it unreadable. */
  function Decode(text: string, fallback: Source): Option<Source> {
    var entries := Entries(Lines(text));
    if entries.None? || !Legible(text) then None
    else
      var read := Source(Field(entries.value, "provider"), Field(entries.value, "root"),
                         Field(entries.value, "key"), [], "");
      Some(Normalize(MergeFallback(read, fallback)))
  }

  // ---------------------------------------------------------------- the canonical form is canonical

  lemma LowerIdempotent(s: string)
    ensures Lower(Lower(s)) == Lower(s)
  {
  }

  lemma LowerKeepsSpace(s: string, i: nat)
    requires i < |s|
    ensures Lower(s)[i] in WHITESPACE <==> s[i] in WHITESPACE
  {
  }

  lemma ProviderIdempotent(provider: string)
    ensures CanonicalProvider(CanonicalProvider(provider)) == CanonicalProvider(provider)
    ensures Trimmed(CanonicalProvider(provider), WHITESPACE) && CanonicalProvider(provider) != ""
  {
    hide Trim;
    var t := TrimSpace(provider);
    TrimFixes(provider, WHITESPACE);
    LowerIdempotent(t);
    if t != "" {
      LowerKeepsSpace(t, 0);
      LowerKeepsSpace(t, |t| - 1);
    }
    TrimFixes(Lower(t), WHITESPACE);
    FileCanonical();
  }

  lemma FileCanonical()
    ensures CanonicalProvider("file") == "file"
  {
    assert Trimmed("file", WHITESPACE);
    TrimFixes("file", WHITESPACE);
    assert Lower("file") == "file";
  }

  lemma TrimShorter(s: string, cut: set<char>)
    ensures |Trim(s, cut)| <= |s|
    ensures |Trim(s, cut)| == |s| <==> Trim(s, cut) == s
  {
    TrimLeftEnds(s, cut);
    TrimRightEnds(TrimLeft(s, cut), cut);
    if s != "" && s[0] in cut {
      TrimLeftEnds(s[1..], cut);
    }
  }

  lemma CleanShape(prefix: string)
    ensures
      var clean := CleanPrefix(prefix, CONFIG_PREFIX);
      clean != "" && clean[0] == '/' && Trimmed(clean[1..], SLASH)
  {
    TrimFixes(TrimSpace(prefix), SLASH);
  }

  /** Cleaning a clean prefix changes it exactly if it ends in white space. */
  lemma CleanTwice(prefix: string)
    ensures
      var clean := CleanPrefix(prefix, CONFIG_PREFIX);
      CleanPrefix(clean, CONFIG_PREFIX) == clean <==> Trimmed(clean, WHITESPACE)
  {
    hide Trim;
    var clean := CleanPrefix(prefix, CONFIG_PREFIX);
    CleanShape(prefix);
    SlashVisible();
    TrimFixes(clean, WHITESPACE);
    SlashStays(clean);
    var t := TrimSpace(clean);
    SkipSlash(t);
    TrimFixes(t[1..], SLASH);
    TrimShorter(t[1..], SLASH);
    TrimShorter(clean, WHITESPACE);
    assert !Blank(clean);
    assert CleanPrefix(clean, CONFIG_PREFIX) == "/" + Trim(t[1..], SLASH);
    if t == clean {
      assert clean == "/" + clean[1..];
    } else {
      assert |t| < |clean|;
    }
  }

  lemma SlashVisible()
    ensures '/' !in WHITESPACE
  {
  }

  lemma SlashStays(s: string)
    requires s != "" && s[0] == '/'
    ensures TrimSpace(s) != "" && TrimSpace(s)[0] == '/'
  {
    SlashVisible();
    TrimRightStops(s, WHITESPACE);
  }

  lemma {:induction false} TrimRightStops(s: string, cut: set<char>)
    requires s != "" && s[0] !in cut
    ensures TrimRight(s, cut) != "" && TrimRight(s, cut)[0] == s[0]
  {
    if s[|s| - 1] in cut {
      TrimRightStops(s[..|s| - 1], cut);
    }
  }

  lemma SkipSlash(s: string)
    requires s != "" && s[0] == '/'
    ensures Trim(s, SLASH) == Trim(s[1..], SLASH)
  {
    TrimSkips(s, SLASH);
  }

  lemma KeyIdempotent(s: Source)
    ensures Normalize(Normalize(s)).provider == Normalize(s).provider
    ensures Normalize(Normalize(s)).key == Normalize(s).key
  {
    ProviderIdempotent(s.provider);
    TrimIdempotent(s.key, WHITESPACE);
    DefaultKeyTrimmed();
  }

  lemma DefaultKeyTrimmed()
    ensures TrimSpace(DEFAULT_RUNTIME_KEY) == DEFAULT_RUNTIME_KEY
  {
    hide Trim;
    var key := DEFAULT_RUNTIME_KEY;
    assert key[0] == 'c' && key[|key| - 1] == 'l';
    assert 'c' !in WHITESPACE && 'l' !in WHITESPACE;
    TrimFixes(key, WHITESPACE);
  }

  /**
   Normalize always settles the provider and the key; it settles the whole source in one go unless
   it is an etcd source whose cleaned prefix still ends in white space.
   */
  lemma NormalizeSettles(s: Source)
    ensures
      var n := Normalize(s);
      && Normalize(n).provider == n.provider && Normalize(n).key == n.key
      && (Normalize(n) == n <==> n.provider == "etcd" ==> Trimmed(n.prefix, WHITESPACE))
  {
    hide CleanPrefix, CanonicalProvider, TrimSpace;
    KeyIdempotent(s);
    CleanTwice(s.prefix);
  }

  lemma BlankIsCleaned()
    ensures CleanPrefix("a /", CONFIG_PREFIX) == "/a "
  {
    hide Trim;
    TrimFixes("a /", WHITESPACE);
    TrimAppended("a ", '/', SLASH);
    assert "a " + ['/'] == "a /";
  }

  lemma CleanedAgain()
    ensures CleanPrefix("/a ", CONFIG_PREFIX) == "/a"
  {
    hide Trim;
    TrimAppended("/a", ' ', WHITESPACE);
    assert "/a" + [' '] == "/a ";
    TrimSkips("/a", SLASH);
    assert "/a"[1..] == "a";
    TrimFixes("a", SLASH);
  }

  lemma EtcdCanonical()
    ensures CanonicalProvider("etcd") == "etcd"
  {
    hide Trim;
    TrimFixes("etcd", WHITESPACE);
    assert Lower("etcd") == "etcd";
  }

  /** A prefix that is not settled: cleaning it a second time also removes the blank. */
  lemma BlankBeforeSlash()
    ensures
      var s := Source("etcd", "", "", [], "a /");
      Normalize(s).prefix == "/a " && Normalize(Normalize(s)).prefix == "/a"
  {
    hide CleanPrefix, CanonicalProvider, TrimSpace, DEFAULT_RUNTIME_KEY, CONFIG_PREFIX, DEFAULT_ENDPOINT;
    EtcdCanonical();
    BlankIsCleaned();
    CleanedAgain();
  }

  // ---------------------------------------------------------------- defaults

  /** What a source that leaves everything open becomes. */
  lemma DefaultSource(root: string)
    ensures Normalize(Source("", root, "", [], "")) == Source("file", root, "configs/runtime.yaml", [], "")
  {
    hide CleanPrefix;
  }

  /**
   What normalizing makes of each field: providers are told apart regardless of case and surrounding
   space; only the known ones have a default key; and only etcd has default endpoints and a prefix
   that is cleaned.
   */
  lemma NormalFields(s: Source)
    ensures
      var n, provider := Normalize(s), Lower(TrimSpace(s.provider));
      && (provider == "" ==> n.provider == "file") && (provider != "" ==> n.provider == provider)
      && n.root == s.root
      && (TrimSpace(s.key) != "" ==> n.key == TrimSpace(s.key))
      && (TrimSpace(s.key) == "" ==> n.key == if provider in {"", "file", "etcd"} then "configs/runtime.yaml" else "")
      && (provider != "etcd" || s.endpoints != [] ==> n.endpoints == s.endpoints)
      && (provider == "etcd" && s.endpoints == [] ==> n.endpoints == ["127.0.0.1:2379"])
      && (provider != "etcd" ==> n.prefix == s.prefix)
      && (provider == "etcd" && TrimSpace(s.prefix) == "" ==> n.prefix == "/runtime/config")
      && (provider == "etcd" && TrimSpace(s.prefix) != "" ==> n.prefix == "/" + Trim(TrimSpace(s.prefix), SLASH))
  {
    hide TrimSpace, Trim, Lower;
  }

  /**
   What a reader makes of a policy text: the text decides what it names, and the reader's own
   settings what it does not, except for the root, which is the text's; the result is normal.
   */
  lemma DecodedFields(text: string, reader: Source)
    requires Decode(text, reader).Some?
    ensures Entries(Lines(text)).Some?
    ensures
      var entries := Entries(Lines(text)).value;
      var provider, key, root := Field(entries, "provider"), Field(entries, "key"), Field(entries, "root");
      Decode(text, reader).value
      == Normalize(reader.(provider := if provider == "" then reader.provider else provider,
                           key := if key == "" then reader.key else key,
                           root := root))
  {
    hide Normalize, Lines, Entries, Legible;
  }

  // ---------------------------------------------------------------- what plain text reads as

  lemma {:induction false} ColonAfter(name: string, rest: string)
    requires forall i | 0 <= i < |name| :: name[i] != ':'
    ensures ColonAt(Line(name, rest)) == |name|
  {
    var s := Line(name, rest);
    if name != "" {
      ColonAfter(name[1..], rest);
      assert s[1..] == Line(name[1..], rest);
    }
  }

  lemma GapsInWhitespace()
    ensures GAPS <= WHITESPACE && BREAKS <= WHITESPACE && ' ' in GAPS
  {
  }

  /** A plain string reads back as itself. */
  lemma PlainReads(v: string)
    requires Plain(v)
    ensures Scalar(" " + v) == Some(v)
  {
    hide CommentAt, ColonAt, Trim, StartsToken, Printable;
    var raw := " " + v;
    assert raw[..CommentAt(raw)] == raw;
    GapsInWhitespace();
    TrimSkips(raw, GAPS);
    assert raw[1..] == v;
    TrimFixes(v, GAPS);
  }

  lemma TrimStart(s: string, cut: set<char>)
    requires s != "" && s[0] !in cut
    ensures Trim(s, cut) != "" && Trim(s, cut)[0] == s[0]
  {
    TrimRightStops(s, cut);
  }

  /** What a scalar without line breaks reads as: nothing, itself if it is plain, or less of it. */
  lemma ScalarShape(v: string)
    requires Unbroken(v) && Legible(v) && Trimmed(v, GAPS)
    ensures
      var read := Scalar(" " + v);
      && (read == Some(v) && v != "" <==> Plain(v))
      && (read.Some? && read.value != "" && read.value != v ==>
            |read.value| < |v| && read.value[0] == v[0])
  {
    hide CommentAt, ColonAt, Trim, StartsToken, NULLS;
    var raw := " " + v;
    var cut := raw[..CommentAt(raw)];
    var w := Trim(cut, GAPS);
    GapsInWhitespace();
    EmptyIsNull();
    if CommentAt(raw) == |raw| {
      assert cut == raw && raw[1..] == v;
      TrimSkips(raw, GAPS);
      TrimFixes(v, GAPS);
    } else if |cut| > 1 {
      assert cut[0] == ' ' && cut[1..] == v[..|cut| - 1];
      TrimSkips(cut, GAPS);
      TrimShorter(cut[1..], GAPS);
      TrimStart(cut[1..], GAPS);
    } else {
      assert cut == "" || cut == " ";
      assert cut == " " ==> cut[1..] == "";
      TrimFixes("", GAPS);
      if cut == " " {
        TrimSkips(cut, GAPS);
      }
      assert w == "";
    }
  }

  lemma EmptyIsNull()
    ensures "" in NULLS
  {
  }

  // ---------------------------------------------------------------- what the two lines read as

  lemma BreakUnique(text: string, i: nat)
    requires i < |text| && text[i] in BREAKS && Unbroken(text[..i])
    ensures BreakAt(text) == i
  {
    hide BREAKS;
    var b := BreakAt(text);
    assert forall j | 0 <= j < i :: text[..i][j] == text[j] && text[j] !in BREAKS;
    assert forall j | 0 <= j < b :: text[..b][j] == text[j] && text[j] !in BREAKS;
  }

  lemma LinesOf(line: string, rest: string)
    requires Unbroken(line)
    ensures Lines(line + "\n" + rest) == [line] + Lines(rest)
  {
    hide Lines;
    var text := line + "\n" + rest;
    assert text[..|line|] == line && text[|line|] == '\n' && text[|line| + 1..] == rest;
    BreakUnique(text, |line|);
    LinesStep(text);
  }

  lemma LinesStep(text: string)
    requires BreakAt(text) < |text|
    ensures Lines(text) == [text[..BreakAt(text)]] + Lines(text[BreakAt(text) + 1..])
  {
  }

  lemma {:induction false} LinesUnbroken(text: string)
    ensures forall i | 0 <= i < |Lines(text)| :: Unbroken(Lines(text)[i])
  {
    var i := BreakAt(text);
    if i < |text| {
      LinesUnbroken(text[i + 1..]);
    } else {
      assert text[..i] == text;
    }
  }

  lemma UnbrokenPart(s: string, lo: nat, hi: nat)
    requires Unbroken(s) && lo <= hi <= |s|
    ensures Unbroken(s[lo..hi])
  {
  }

  lemma TrimLeftUnbroken(s: string, cut: set<char>)
    requires Unbroken(s)
    ensures Unbroken(TrimLeft(s, cut))
  {
    if s != "" && s[0] in cut {
      TrimLeftUnbroken(s[1..], cut);
    }
  }

  lemma TrimUnbroken(s: string, cut: set<char>)
    requires Unbroken(s)
    ensures Unbroken(Trim(s, cut))
  {
    TrimLeftUnbroken(s, cut);
    TrimRightEnds(TrimLeft(s, cut), cut);
    var t, r := TrimLeft(s, cut), Trim(s, cut);
    assert r == t[..|r|];
  }

  lemma ScalarUnbroken(raw: string)
    requires Unbroken(raw)
    ensures Scalar(raw).Some? ==> Unbroken(Scalar(raw).value)
  {
    hide Trim, ColonAt, StartsToken;
    TrimUnbroken(raw[..CommentAt(raw)], GAPS);
  }

  /** No value read from lines contains a line break. */
  lemma {:induction false} EntriesUnbroken(lines: seq<string>, name: string)
    requires forall i | 0 <= i < |lines| :: Unbroken(lines[i])
    requires Entries(lines).Some? && name in Entries(lines).value
    ensures Unbroken(Entries(lines).value[name])
  {
    hide Unbroken, Scalar;
    var n := |lines| - 1;
    var line := lines[n];
    var colon := ColonAt(line);
    if name == line[..colon] {
      UnbrokenPart(line, colon + 1, |line|);
      assert line[colon + 1..] == line[colon + 1..|line|];
      ScalarUnbroken(line[colon + 1..]);
    } else {
      EntriesUnbroken(lines[..n], name);
    }
  }

  /** Later lines leave what earlier lines said alone. */
  lemma {:induction false} EntriesKeep(lines: seq<string>, n: nat, name: string)
    requires n <= |lines| && Entries(lines).Some?
    ensures Entries(lines[..n]).Some?
    ensures name in Entries(lines[..n]).value ==>
        name in Entries(lines).value && Entries(lines).value[name] == Entries(lines[..n]).value[name]
  {
    hide Scalar, ColonAt;
    if n == |lines| {
      assert lines[..n] == lines;
    } else {
      var init := lines[..|lines| - 1];
      EntriesKeep(init, n, name);
      assert init[..n] == lines[..n];
    }
  }

  lemma OneEntry(lines: seq<string>, name: string, v: string)
    requires forall i | 0 <= i < |name| :: name[i] != ':'
    requires Entries(lines).Some? && name !in Entries(lines).value
    ensures Entries(lines + [Line(name, v)])
         == if Scalar(" " + v).None? then None else Some(Entries(lines).value[name := Scalar(" " + v).value])
  {
    hide Scalar;
    var line := Line(name, v);
    ColonAfter(name, v);
    assert line[..|name|] == name && line[|name| + 1..] == " " + v;
    assert (lines + [line])[..|lines|] == lines;
  }

  /** The lines that Encode writes when nothing in them breaks a line. */
  lemma EncodedLines(p: string, rest: string)
    requires Unbroken(p)
    ensures Lines(Line("provider", p) + "\n" + rest) == [Line("provider", p)] + Lines(rest)
  {
    assert Unbroken(Line("provider", p));
    LinesOf(Line("provider", p), rest);
  }

  lemma KeyLines(k: string)
    requires Unbroken(k)
    ensures Lines(Line("key", k) + "\n") == [Line("key", k)]
  {
    assert Unbroken(Line("key", k));
    assert Line("key", k) + "\n" + "" == Line("key", k) + "\n";
    LinesOf(Line("key", k), "");
    assert Lines("") == [];
    assert [Line("key", k)] + [] == [Line("key", k)];
  }

  lemma FirstEntry(p: string, rest: seq<string>)
    requires Entries([Line("provider", p)] + rest).Some?
    ensures
      var entries := Entries([Line("provider", p)] + rest).value;
      && Scalar(" " + p).Some?
      && "provider" in entries && entries["provider"] == Scalar(" " + p).value
  {
    hide Scalar, Entries;
    var lines := [Line("provider", p)] + rest;
    assert lines[..1] == [] + [Line("provider", p)];
    EntriesKeep(lines, 1, "provider");
    NoEntries();
    OneEntry([], "provider", p);
  }

  lemma NoEntries()
    ensures Entries([]) == Some(map[])
  {
  }

  lemma TwoEntries(p: string, k: string)
    requires Scalar(" " + p).Some?
    ensures Entries([Line("provider", p)] + [Line("key", k)])
         == if Scalar(" " + k).None? then None
            else Some(map["provider" := Scalar(" " + p).value, "key" := Scalar(" " + k).value])
  {
    hide Scalar, Entries;
    NoEntries();
    OneEntry([], "provider", p);
    assert [] + [Line("provider", p)] == [Line("provider", p)];
    OneEntry([Line("provider", p)], "key", k);
  }

  // ---------------------------------------------------------------- agreement on the policy

  /** Whoever reads what `w` wrote ends up with the provider and the key of `w`. */
  predicate Agrees(w: Source, reader: Source) {
    var read := Decode(Encode(w), reader);
    read.Some? && read.value.provider == Normalize(w).provider && read.value.key == Normalize(w).key
  }

  lemma PolicyText(w: Source)
    ensures
      var n := Normalize(w);
      Encode(w) == Line("provider", n.provider) + "\n" + (Line("key", n.key) + "\n")
  {
  }

  lemma NormalTrimmed(w: Source)
    ensures Trimmed(Normalize(w).provider, WHITESPACE) && Trimmed(Normalize(w).key, WHITESPACE)
    ensures Trimmed(Normalize(w).provider, GAPS) && Trimmed(Normalize(w).key, GAPS)
    ensures Normalize(w).provider != ""
  {
    ProviderIdempotent(w.provider);
    TrimFixes(w.key, WHITESPACE);
    DefaultKeyTrimmed();
    TrimFixes(DEFAULT_RUNTIME_KEY, WHITESPACE);
    GapsInWhitespace();
  }

  /** The text is legible when what stands in it is. */
  lemma TextLegible(p: string, k: string)
    ensures Legible(Line("provider", p) + "\n" + (Line("key", k) + "\n")) <==> Legible(p) && Legible(k)
  {
    hide Printable;
    WordsLegible();
    LegibleConcat(Line("provider", p), "\n");
    LegibleConcat(Line("key", k), "\n");
    LegibleConcat(Line("provider", p) + "\n", Line("key", k) + "\n");
    LegibleConcat("provider" + ": ", p);
    LegibleConcat("provider", ": ");
    LegibleConcat("key" + ": ", k);
    LegibleConcat("key", ": ");
  }

  lemma LegibleConcat(a: string, b: string)
    ensures Legible(a + b) <==> Legible(a) && Legible(b)
  {
    hide Printable;
    forall i | 0 <= i < |a| ensures (a + b)[i] == a[i] {
    }
    forall i | 0 <= i < |b| ensures (a + b)[|a| + i] == b[i] {
    }
  }

  lemma WordsLegible()
    ensures Legible("provider") && Legible("key") && Legible(": ") && Legible("\n")
  {
  }

  /** A policy in plain words reads back the same for every reader, whose own root is lost on the way. */
  lemma PlainPolicyAgrees(w: Source, reader: Source)
    requires Plain(Normalize(w).provider) && Plain(Normalize(w).key)
    ensures Agrees(w, reader)
    ensures Decode(Encode(w), reader).value.root == ""
  {
    hide Plain, Scalar, Lines, Entries, Normalize, Encode, Legible;
    var n := Normalize(w);
    PolicyText(w);
    PlainFacts(n.provider);
    PlainFacts(n.key);
    TextLegible(n.provider, n.key);
    EncodedLines(n.provider, Line("key", n.key) + "\n");
    KeyLines(n.key);
    PlainReads(n.provider);
    PlainReads(n.key);
    TwoEntries(n.provider, n.key);
    var merged := MergeFallback(Source(n.provider, "", n.key, [], ""), reader);
    assert Decode(Encode(w), reader) == Some(Normalize(merged));
    SettledFields(w, merged);
  }

  lemma PlainFacts(v: string)
    requires Plain(v)
    ensures Unbroken(v) && Legible(v) && v != ""
  {
  }

  /** Provider and key of a canonical source stay as they are in any other source. */
  lemma SettledFields(w: Source, s: Source)
    requires s.provider == Normalize(w).provider && s.key == Normalize(w).key
    ensures Normalize(s).provider == s.provider && Normalize(s).key == s.key && Normalize(s).root == s.root
  {
    KeyIdempotent(w);
  }

  /** A reader whose own settings differ from those of `w` in provider and key. */
  function Stranger(w: Source): Source {
    Source(Normalize(w).provider + "x", "", Normalize(w).key + "x", [], "")
  }

  lemma StrangerDiffers(w: Source, s: Source)
    ensures s.provider == Stranger(w).provider ==> Normalize(s).provider != Normalize(w).provider
    ensures s.key == Stranger(w).key ==> Normalize(s).key != Normalize(w).key
  {
    hide Trim;
    NormalTrimmed(w);
    var p, k := Normalize(w).provider + "x", Normalize(w).key + "x";
    LetterVisible();
    TrimFixes(p, WHITESPACE);
    TrimFixes(k, WHITESPACE);
    assert |Lower(p)| == |Normalize(w).provider| + 1;
  }

  lemma LetterVisible()
    ensures 'x' !in WHITESPACE
  {
  }

  /** What the provider and the key are read from, when that is neither empty nor broken into lines. */
  lemma ReadFields(s: Source)
    ensures s.provider != "" && s.provider[0] !in WHITESPACE ==> |Normalize(s).provider| <= |s.provider|
    ensures s.key != "" && s.key[0] !in WHITESPACE ==> |Normalize(s).key| <= |s.key|
    ensures Unbroken(s.provider) ==> Unbroken(Normalize(s).provider)
    ensures Unbroken(s.key) ==> Unbroken(Normalize(s).key)
  {
    hide Trim;
    TrimShorter(s.provider, WHITESPACE);
    TrimShorter(s.key, WHITESPACE);
    if s.provider != "" && s.provider[0] !in WHITESPACE {
      TrimStart(s.provider, WHITESPACE);
    }
    if s.key != "" && s.key[0] !in WHITESPACE {
      TrimStart(s.key, WHITESPACE);
    }
    if Unbroken(s.provider) {
      TrimUnbroken(s.provider, WHITESPACE);
      LowerUnbroken(TrimSpace(s.provider));
    }
    if Unbroken(s.key) {
      TrimUnbroken(s.key, WHITESPACE);
      assert Unbroken(DEFAULT_RUNTIME_KEY);
    }
  }

  lemma LowerUnbroken(s: string)
    requires Unbroken(s)
    ensures Unbroken(Lower(s))
  {
  }

  /** Whatever else the text says, a provider that is not plain is not read back by a stranger. */
  lemma ProviderLost(w: Source)
    requires !Plain(Normalize(w).provider)
    ensures !Agrees(w, Stranger(w))
  {
    hide Plain, Scalar, Lines, Entries, Normalize, Unbroken, BREAKS, WHITESPACE, NULLS, Legible;
    TextLegible(Normalize(w).provider, Normalize(w).key);
    var p, rest := Normalize(w).provider, Line("key", Normalize(w).key) + "\n";
    PolicyText(w);
    NormalTrimmed(w);
    var lines := Lines(Encode(w));
    if Entries(lines).Some? && Legible(Encode(w)) {
      var entries := Entries(lines).value;
      var read := Source(Field(entries, "provider"), Field(entries, "root"), Field(entries, "key"), [], "");
      var merged := MergeFallback(read, Stranger(w));
      StrangerDiffers(w, merged);
      ReadFields(merged);
      LinesUnbroken(Encode(w));
      if read.provider != "" {
        EntriesUnbroken(lines, "provider");
        if Unbroken(p) {
          EncodedLines(p, rest);
          FirstEntry(p, Lines(rest));
          ScalarShape(p);
        }
      }
    }
  }

  lemma KeyLost(w: Source)
    requires Plain(Normalize(w).provider) && !Plain(Normalize(w).key)
    ensures !Agrees(w, Stranger(w))
  {
    hide Plain, Scalar, Lines, Entries, Normalize, Unbroken, BREAKS, WHITESPACE, NULLS, Legible;
    TextLegible(Normalize(w).provider, Normalize(w).key);
    var p, k := Normalize(w).provider, Normalize(w).key;
    PolicyText(w);
    NormalTrimmed(w);
    var lines := Lines(Encode(w));
    if Entries(lines).Some? && Legible(Encode(w)) {
      var entries := Entries(lines).value;
      var read := Source(Field(entries, "provider"), Field(entries, "root"), Field(entries, "key"), [], "");
      var merged := MergeFallback(read, Stranger(w));
      StrangerDiffers(w, merged);
      ReadFields(merged);
      LinesUnbroken(Encode(w));
      if read.key != "" {
        EntriesUnbroken(lines, "key");
        if Unbroken(k) {
          PlainFacts(p);
          EncodedLines(p, Line("key", k) + "\n");
          KeyLines(k);
          PlainReads(p);
          TwoEntries(p, k);
          ScalarShape(k);
        }
      }
    }
  }

  /**
   The policy text carries the provider and the key to every reader exactly when both are plain
   words: the text is written without quoting.
   */
  lemma PolicyRoundTrip(w: Source)
    ensures (forall reader :: Agrees(w, reader)) <==> Plain(Normalize(w).provider) && Plain(Normalize(w).key)
  {
    hide Plain, Normalize, Agrees;
    if !Plain(Normalize(w).provider) {
      ProviderLost(w);
    } else if !Plain(Normalize(w).key) {
      KeyLost(w);
    } else {
      forall reader ensures Agrees(w, reader) {
        PlainPolicyAgrees(w, reader);
      }
    }
  }

  lemma HashedComment()
    ensures CommentAt(" a #b") == 3
  {
    var raw := " a #b";
    assert raw[1..] == "a #b" && raw[1..][1..] == " #b" && raw[1..][1..][0] == ' ' && raw[1..][1..][1] == '#';
    assert CommentAt(raw[1..][1..]) == 1;
    assert CommentAt(raw[1..]) == 2;
  }

  /** A key with a hash after a blank is cut there when it is read. */
  lemma HashedScalar()
    ensures !Plain("a #b") && Unbroken("a #b") && Scalar(" a #b") == Some("a") && TrimSpace("a #b") == "a #b"
  {
    hide Trim, CommentAt;
    var raw := " a #b";
    HashedComment();
    assert raw[..3] == " a ";
    assert " a "[1..] == "a " && "a" + [' '] == "a ";
    TrimSkips(" a ", GAPS);
    TrimAppended("a", ' ', GAPS);
    TrimFixes("a #b", WHITESPACE);
    assert " " + "a #b" == raw;
    LetterRead();
  }

  lemma LetterRead()
    ensures "a" !in NULLS && !StartsToken("a") && ColonAt("a") == -1
  {
  }

  /** So no reader ever gets such a key whole. */
  lemma HashedKey(reader: Source)
    ensures !Plain("a #b") && !Agrees(Source("file", "", "a #b", [], ""), reader)
  {
    hide Plain, Scalar, Lines, Entries, Encode, Trim, CommentAt, Unbroken, NULLS, Legible;
    var w := Source("file", "", "a #b", [], "");
    HashedScalar();
    FileCanonical();
    PolicyText(w);
    FileUnbroken();
    EncodedLines("file", Line("key", "a #b") + "\n");
    KeyLines("a #b");
    assert " " + "a #b" == " a #b";
    TwoEntries("file", "a #b");
    TrimFixes("a", WHITESPACE);
  }

  lemma FileUnbroken()
    ensures Unbroken("file") && Scalar(" " + "file").Some?
  {
    hide Trim;
    assert Plain("file") by { FilePlain(); }
    PlainReads("file");
  }

  lemma FilePlain()
    ensures Plain("file")
  {
    var raw := " file";
    assert raw == " " + "file" && raw[1..] == "file";
    assert "file"[1..] == "ile" && "ile"[1..] == "le" && "le"[1..] == "e";
    assert CommentAt("e") == 1 && CommentAt("le") == 2 && CommentAt("ile") == 3 && CommentAt("file") == 4;
    assert ColonAt("e") == -1 && ColonAt("le") == -1 && ColonAt("ile") == -1 && ColonAt("file") == -1;
  }
}
