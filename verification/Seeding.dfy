/**
 First-writer-wins seeding: any number of processes look a key up, write their own value if it is
 missing, and look again. The store offers an atomic put-if-absent and nobody deletes.
 */
module Seeding {
  import opened Wrappers
  import opened Text
  import opened PolicySource

  const DEFAULT_POLICY_KEY := "system/config-source.yaml"

  /** The local file that a seed is read from. */
  datatype Local = Contents(data: string) | NotExist | Unreadable

  /** What a process loads: a config file with a local seed, or the source policy. */
  datatype Job =
    | ConfigFile(key: string, local: Local, disableAutoSeed: bool)
    | Policy(policyKey: string, fallback: Source)
  {
    /** The key looked up in the store. */
    function Key(): string {
      if ConfigFile? then key
      else
        var trimmed := Trim(TrimSpace(policyKey), SLASH);
        if trimmed == "" then DEFAULT_POLICY_KEY else trimmed
    }

    /** What the process writes if the key is missing, if it may write at all. */
    function Seed(): Option<string> {
      if Policy? then Some(Encode(fallback))
      else if !disableAutoSeed && local.Contents? then Some(local.data)
      else None
    }
  }

  /** `Served` holds the text read, `Created` says that the process's own value made it. */
  datatype Phase = First | Seeding | Second | Served(text: string) | Created | Failed

  datatype Process = Process(job: Job, phase: Phase)

  datatype State = State(store: map<string, string>, processes: seq<Process>)

  /** How a write can go: it gets through, it is lost, or it is applied but its reply is lost. */
  datatype Fate = Answered | Lost | Unanswered

  datatype Action = Spawn(job: Job) | Get(process: nat, outage: bool) | Put(process: nat, fate: Fate)

  /** The phase after a lookup. */
  function Looked(store: map<string, string>, p: Process, outage: bool): Phase {
    var key := p.job.Key();
    if outage || key == "" then Failed
    else if key in store then Served(store[key])
    else if p.phase.First? && p.job.Seed().Some? then Seeding
    else Failed
  }

  function PutIfAbsent(store: map<string, string>, key: string, value: string): map<string, string> {
    if key in store then store else store[key := value]
  }

  /** The phase after a put-if-absent; a policy that was created is not looked up again. */
  function Wrote(store: map<string, string>, p: Process, fate: Fate): Phase {
    if !fate.Answered? then Failed
    else if p.job.Policy? && p.job.Key() !in store then Created
    else Second
  }

  function Step(s: State, a: Action): State {
    match a
    case Spawn(job) => s.(processes := s.processes + [Process(job, First)])
    case Get(i, outage) =>
      if i < |s.processes| && (s.processes[i].phase.First? || s.processes[i].phase.Second?) then
        s.(processes := s.processes[i := s.processes[i].(phase := Looked(s.store, s.processes[i], outage))])
      else s
    case Put(i, fate) =>
      if i < |s.processes| && s.processes[i].phase.Seeding? && s.processes[i].job.Seed().Some? then
        var p := s.processes[i];
        State(if fate.Lost? then s.store else PutIfAbsent(s.store, p.job.Key(), p.job.Seed().value),
              s.processes[i := p.(phase := Wrote(s.store, p, fate))])
      else s
  }

  function Run(store: map<string, string>, actions: seq<Action>): State {
    if actions == [] then State(store, []) else Step(Run(store, actions[..|actions| - 1]), actions[|actions| - 1])
  }

  // ---------------------------------------------------------------- what every run keeps

  predicate Extends(store: map<string, string>, later: map<string, string>) {
    forall key | key in store :: key in later && later[key] == store[key]
  }

  /** What a process knows about the store. */
  predicate Informed(store: map<string, string>, p: Process) {
    match p.phase
    case Second => p.job.Key() in store
    case Served(text) => p.job.Key() in store && store[p.job.Key()] == text
    case Created => p.job.Policy? && p.job.Key() in store && store[p.job.Key()] == Encode(p.job.fallback)
    case Seeding => p.job.Seed().Some? && p.job.Key() != ""
    case _ => true
  }

  /** Process `i` may write `text` under `key`. */
  predicate Seeds(s: State, i: nat, key: string, text: string) {
    i < |s.processes| && s.processes[i].job.Key() == key && s.processes[i].job.Seed() == Some(text)
  }

  ghost predicate Written(base: map<string, string>, s: State, key: string)
    requires key in s.store
  {
    (key in base && base[key] == s.store[key]) || exists i: nat :: Seeds(s, i, key, s.store[key])
  }

  ghost predicate Inv(base: map<string, string>, s: State) {
    && Extends(base, s.store)
    && (forall i | 0 <= i < |s.processes| :: Informed(s.store, s.processes[i]))
    && (forall key | key in s.store :: Written(base, s, key))
  }

  lemma StepExtends(s: State, a: Action)
    ensures Extends(s.store, Step(s, a).store)
    ensures |s.processes| <= |Step(s, a).processes|
    ensures forall i | 0 <= i < |s.processes| :: Step(s, a).processes[i].job == s.processes[i].job
  {
    hide Encode;
  }

  lemma InformedKeeps(s: State, a: Action)
    requires forall i | 0 <= i < |s.processes| :: Informed(s.store, s.processes[i])
    ensures forall i | 0 <= i < |Step(s, a).processes| :: Informed(Step(s, a).store, Step(s, a).processes[i])
  {
    hide Encode, Trim, TrimSpace;
    StepExtends(s, a);
    var after := Step(s, a);
    forall i | 0 <= i < |after.processes| ensures Informed(after.store, after.processes[i]) {
      assert i < |s.processes| ==> Informed(s.store, s.processes[i]);
    }
  }

  lemma WrittenKeeps(base: map<string, string>, s: State, a: Action, key: string)
    requires key in Step(s, a).store && (key in s.store ==> Written(base, s, key))
    ensures Written(base, Step(s, a), key)
  {
    hide Encode, Trim, TrimSpace, Looked, Wrote;
    StepExtends(s, a);
    var after := Step(s, a);
    if key in s.store {
      if i: nat :| Seeds(s, i, key, s.store[key]) {
        assert Seeds(after, i, key, after.store[key]);
      }
    } else {
      assert Seeds(after, a.process, key, after.store[key]);
    }
  }

  lemma StepKeeps(base: map<string, string>, s: State, a: Action)
    requires Inv(base, s)
    ensures Inv(base, Step(s, a))
  {
    hide Step, Written, Informed;
    StepExtends(s, a);
    InformedKeeps(s, a);
    forall key | key in Step(s, a).store ensures Written(base, Step(s, a), key) {
      WrittenKeeps(base, s, a, key);
    }
  }

  lemma {:induction false} RunKeeps(base: map<string, string>, actions: seq<Action>)
    ensures Inv(base, Run(base, actions))
  {
    hide Step;
    if actions != [] {
      var n := |actions| - 1;
      RunKeeps(base, actions[..n]);
      StepKeeps(base, Run(base, actions[..n]), actions[n]);
    }
  }

  /** A key that is present keeps its value for the rest of the run. */
  lemma {:induction false} ValuesNeverChange(base: map<string, string>, actions: seq<Action>, n: nat, key: string)
    requires n <= |actions| && key in Run(base, actions[..n]).store
    ensures key in Run(base, actions).store
    ensures Run(base, actions).store[key] == Run(base, actions[..n]).store[key]
  {
    hide Step;
    if n == |actions| {
      assert actions[..n] == actions;
    } else {
      var init := actions[..|actions| - 1];
      assert init[..n] == actions[..n];
      ValuesNeverChange(base, init, n, key);
      StepExtends(Run(base, init), actions[|actions| - 1]);
    }
  }

  /** All successful loads of one key, whenever they ended, returned the same text: the store's. */
  lemma {:induction false} LoadsAgree(base: map<string, string>, actions: seq<Action>, i: nat, j: nat)
    requires
      var ps := Run(base, actions).processes;
      && i < |ps| && j < |ps| && ps[i].phase.Served? && ps[j].phase.Served?
      && ps[i].job.Key() == ps[j].job.Key()
    ensures
      var s := Run(base, actions);
      var key := s.processes[i].job.Key();
      && s.processes[i].phase.text == s.processes[j].phase.text
      && key in s.store && s.store[key] == s.processes[i].phase.text
  {
    hide Run;
    RunKeeps(base, actions);
  }

  /** After its own write a process always finds the key. */
  lemma SecondLookupFinds(base: map<string, string>, actions: seq<Action>, i: nat)
    requires i < |Run(base, actions).processes| && Run(base, actions).processes[i].phase.Second?
    requires Run(base, actions).processes[i].job.Key() != ""
    ensures Step(Run(base, actions), Get(i, false)).processes[i].phase.Served?
  {
    hide Run, Encode, Trim, TrimSpace;
    RunKeeps(base, actions);
  }

  /** Values come from the initial store or from a process that may seed, so disabled ones write nothing. */
  lemma OnlySeedersWrite(base: map<string, string>, actions: seq<Action>, key: string)
    requires key in Run(base, actions).store && key !in base
    ensures exists i: nat :: Seeds(Run(base, actions), i, key, Run(base, actions).store[key])
    ensures exists i | 0 <= i < |Run(base, actions).processes| ::
        var job := Run(base, actions).processes[i].job;
        && job.Key() == key
        && (job.ConfigFile? ==> !job.disableAutoSeed && job.local == Contents(Run(base, actions).store[key]))
  {
    hide Run, Encode, Trim, TrimSpace;
    RunKeeps(base, actions);
    var s := Run(base, actions);
    assert Written(base, s, key);
    var i: nat :| Seeds(s, i, key, s.store[key]);
    var job := s.processes[i].job;
    assert job.Key() == key;
  }

  // ---------------------------------------------------------------- what each process comes to

  /** The job may write: a policy always, a config file with a local copy unless seeding is disabled. */
  predicate MaySeed(job: Job) {
    job.Policy? || (!job.disableAutoSeed && job.local.Contents?)
  }

  /** What it writes. */
  function SeedText(job: Job): string
    requires MaySeed(job)
  {
    if job.Policy? then Encode(job.fallback) else job.local.data
  }

  /**
   A lookup that is answered serves the store's text if the key is there. If not, a process that
   looks for the first time goes on to write if it may, and every other one fails.
   */
  lemma LookupServes(s: State, i: nat)
    requires i < |s.processes| && (s.processes[i].phase.First? || s.processes[i].phase.Second?)
    requires s.processes[i].job.Key() != ""
    ensures
      var p, key := s.processes[i], s.processes[i].job.Key();
      && Step(s, Get(i, true)) == s.(processes := s.processes[i := p.(phase := Failed)])
      && Step(s, Get(i, false))
         == s.(processes := s.processes[i := p.(phase := if key in s.store then Served(s.store[key])
                                                         else if p.phase.First? && MaySeed(p.job) then Seeding
                                                         else Failed)])
  {
    hide Encode, Trim, TrimSpace;
  }

  /**
   A write that gets through stores the process's own text exactly if the key is still missing, and
   then a policy process is done, while every other one looks again. Without its reply the process
   fails, whether or not the text was stored.
   */
  lemma WriteSeeds(s: State, i: nat, fate: Fate)
    requires i < |s.processes| && s.processes[i].phase.Seeding? && MaySeed(s.processes[i].job)
    ensures
      var p, key := s.processes[i], s.processes[i].job.Key();
      var store := if fate.Lost? || key in s.store then s.store else s.store[key := SeedText(p.job)];
      Step(s, Put(i, fate))
      == State(store, s.processes[i := p.(phase := if !fate.Answered? then Failed
                                                   else if p.job.Policy? && key !in s.store then Created
                                                   else Second)])
  {
    hide Encode, Trim, TrimSpace;
  }

  /**
   In every run a process whose requests are answered is served: with the text that was there, or
   else, if it may write, with its own.
   */
  lemma AnsweredIsServed(base: map<string, string>, actions: seq<Action>, i: nat)
    requires i < |Run(base, actions).processes| && Run(base, actions).processes[i].phase.First?
    requires Run(base, actions).processes[i].job.Key() != ""
    ensures
      var s := Run(base, actions);
      var p, key := s.processes[i], s.processes[i].job.Key();
      var looked := Step(s, Get(i, false));
      var wrote := Step(looked, Put(i, Answered));
      var again := Step(wrote, Get(i, false));
      if key in s.store then looked.store == s.store && looked.processes[i].phase == Served(s.store[key])
      else if !MaySeed(p.job) then looked.store == s.store && looked.processes[i].phase == Failed
      else
        && again.store == s.store[key := SeedText(p.job)]
        && again.processes[i].phase == if p.job.Policy? then Created else Served(SeedText(p.job))
  {
    hide Run, Encode, Trim, TrimSpace, Step;
    var s := Run(base, actions);
    LookupServes(s, i);
    if s.processes[i].job.Key() !in s.store && MaySeed(s.processes[i].job) {
      var looked := Step(s, Get(i, false));
      WriteSeeds(looked, i, Answered);
      var wrote := Step(looked, Put(i, Answered));
      if s.processes[i].job.Policy? {
        CreatedStays(wrote, i);
      } else {
        LookupServes(wrote, i);
      }
    }
  }

  lemma CreatedStays(s: State, i: nat)
    requires i < |s.processes| && s.processes[i].phase.Created?
    ensures Step(s, Get(i, false)) == s
  {
  }

  /** What a policy process returns. */
  function PolicyResult(p: Process): Option<Source>
    requires p.job.Policy?
  {
    match p.phase
    case Served(text) => Decode(text, p.job.fallback)
    case Created => Some(p.job.fallback)
    case _ => None
  }

  /** A process that ended without an error. */
  predicate Finished(p: Process) {
    p.phase.Served? || p.phase.Created?
  }

  predicate SamePolicy(a: Option<Source>, b: Option<Source>) {
    a.Some? && b.Some? && a.value.provider == b.value.provider && a.value.key == b.value.key
  }

  /** Canonical, as the default source is before it is resolved. */
  predicate Canonical(s: Source) {
    Normalize(s).provider == s.provider && Normalize(s).key == s.key
  }

  lemma EncodeInjective(a: Source, b: Source)
    requires Plain(Normalize(a).provider) && Plain(Normalize(a).key) && Encode(a) == Encode(b)
    requires Plain(Normalize(b).provider) && Plain(Normalize(b).key)
    ensures Normalize(a).provider == Normalize(b).provider && Normalize(a).key == Normalize(b).key
  {
    hide Plain, Encode, Normalize, Decode;
    PlainPolicyAgrees(a, a);
    PlainPolicyAgrees(b, a);
  }

  /** What a finished process returns when the store holds the policy of `w`. */
  lemma ReturnsPolicyOf(store: map<string, string>, p: Process, w: Source)
    requires Finished(p) && Informed(store, p) && p.job.Policy?
    requires Canonical(p.job.fallback) && Plain(p.job.fallback.provider) && Plain(p.job.fallback.key)
    requires Plain(Normalize(w).provider) && Plain(Normalize(w).key)
    requires p.job.Key() in store && store[p.job.Key()] == Encode(w)
    ensures SamePolicy(PolicyResult(p), Some(Normalize(w)))
    ensures PolicyResult(p).value.root == if p.phase.Created? then p.job.fallback.root else ""
  {
    hide Plain, Encode, Normalize, Decode, Trim, TrimSpace;
    if p.phase.Created? {
      EncodeInjective(p.job.fallback, w);
    } else {
      PlainPolicyAgrees(w, p.job.fallback);
    }
  }

  /**
   Policy agreement: processes that race to publish their default source under a key that the store
   lacks, with canonical settings in plain words, all end up with one provider and one key; only
   the process that created the policy keeps the root of its default source.
   */
  lemma PoliciesAgree(base: map<string, string>, actions: seq<Action>, i: nat, j: nat)
    requires
      var ps := Run(base, actions).processes;
      && i < |ps| && j < |ps| && Finished(ps[i]) && Finished(ps[j])
      && ps[i].job.Policy? && ps[j].job.Policy? && ps[i].job.Key() == ps[j].job.Key()
      && ps[i].job.Key() !in base
      && forall k | 0 <= k < |ps| && ps[k].job.Key() == ps[i].job.Key() ::
           ps[k].job.Policy? && Canonical(ps[k].job.fallback)
           && Plain(ps[k].job.fallback.provider) && Plain(ps[k].job.fallback.key)
    ensures
      var ps := Run(base, actions).processes;
      && SamePolicy(PolicyResult(ps[i]), PolicyResult(ps[j]))
      && PolicyResult(ps[i]).value.root == if ps[i].phase.Created? then ps[i].job.fallback.root else ""
  {
    hide Run, Plain, Normalize, Encode, Decode, Trim, TrimSpace, PolicyResult;
    var s := Run(base, actions);
    var key := s.processes[i].job.Key();
    RunKeeps(base, actions);
    assert Informed(s.store, s.processes[i]) && Informed(s.store, s.processes[j]);
    assert Written(base, s, key);
    var w: nat :| Seeds(s, w, key, s.store[key]);
    var winner := s.processes[w].job.fallback;
    ReturnsPolicyOf(s.store, s.processes[i], winner);
    ReturnsPolicyOf(s.store, s.processes[j], winner);
  }

  // ---------------------------------------------------------------- a policy that is already there

  /** A legible text that names both a provider and a key. */
  predicate Complete(text: string) {
    var entries := Entries(Lines(text));
    Legible(text) && entries.Some? && Field(entries.value, "provider") != "" && Field(entries.value, "key") != ""
  }

  lemma CompleteAgrees(text: string, a: Source, b: Source)
    requires Complete(text)
    ensures SamePolicy(Decode(text, a), Decode(text, b))
  {
    hide Entries, Lines, CanonicalProvider, TrimSpace, CleanPrefix;
  }

  /** A reader of which nothing but the provider and the key matters. */
  function Reader(provider: string, key: string): Source {
    Source(provider, "", key, [], "")
  }

  lemma LetterSettles(c: char)
    requires 'k' <= c <= 'q'
    ensures CanonicalProvider([c]) == [c] && TrimSpace([c]) == [c]
  {
    hide Trim;
    TrimFixes([c], WHITESPACE);
    assert Lower([c]) == [c];
  }

  lemma ReaderCanonical(p: char, k: char)
    requires 'k' <= p <= 'q' && 'k' <= k <= 'q'
    ensures Canonical(Reader([p], [k])) && CanonicalProvider([p]) == [p] && TrimSpace([k]) == [k]
  {
    hide CanonicalProvider, TrimSpace, CleanPrefix;
    LetterSettles(p);
    LetterSettles(k);
  }

  /** A text that leaves one of the two open reads differently for two readers. */
  lemma IncompleteDisagrees(text: string) returns (a: Source, b: Source)
    requires !Complete(text)
    ensures Canonical(a) && Canonical(b) && !SamePolicy(Decode(text, a), Decode(text, b))
  {
    hide Entries, Lines, CanonicalProvider, TrimSpace, CleanPrefix, Canonical, Legible;
    var entries := Entries(Lines(text));
    ReaderCanonical('p', 'k');
    ReaderCanonical('q', 'k');
    ReaderCanonical('p', 'm');
    a := Reader("p", "k");
    b := if entries.Some? && Field(entries.value, "provider") != "" then Reader("p", "m") else Reader("q", "k");
    if entries.Some? && Legible(text) && Field(entries.value, "provider") != "" {
      assert Decode(text, a).value.provider == Decode(text, b).value.provider;
    }
  }

  /** Under a key that was there from the start nobody writes, and whoever finishes was served it. */
  ghost predicate OnlyServed(base: map<string, string>, s: State, key: string)
    requires key in base
  {
    forall i | 0 <= i < |s.processes| && s.processes[i].job.Key() == key ::
      s.processes[i].phase in {First, Failed, Served(base[key])}
  }

  lemma {:induction false} RunOnlyServes(base: map<string, string>, actions: seq<Action>, key: string)
    requires key in base
    ensures OnlyServed(base, Run(base, actions), key)
  {
    if actions != [] {
      hide Encode, Trim, TrimSpace, Run, Extends;
      var n := |actions| - 1;
      RunOnlyServes(base, actions[..n], key);
      RunKeeps(base, actions[..n]);
      assert Run(base, actions) == Step(Run(base, actions[..n]), actions[n]) by { RunLast(base, actions); }
      assert Extends(base, Run(base, actions[..n]).store);
      ExtendsAt(base, Run(base, actions[..n]).store, key);
      StepOnlyServes(base, Run(base, actions[..n]), actions[n], key);
    } else {
      RunNone(base);
    }
  }

  lemma RunNone(base: map<string, string>)
    ensures Run(base, []) == State(base, [])
  {
  }

  lemma RunLast(base: map<string, string>, actions: seq<Action>)
    requires actions != []
    ensures Run(base, actions) == Step(Run(base, actions[..|actions| - 1]), actions[|actions| - 1])
  {
  }

  lemma ExtendsAt(store: map<string, string>, later: map<string, string>, key: string)
    requires Extends(store, later) && key in store
    ensures key in later && later[key] == store[key]
  {
  }

  lemma StepOnlyServes(base: map<string, string>, s: State, a: Action, key: string)
    requires key in base && key in s.store && s.store[key] == base[key] && OnlyServed(base, s, key)
    ensures OnlyServed(base, Step(s, a), key)
  {
    hide Encode, Trim, TrimSpace, PutIfAbsent;
    var after := Step(s, a);
    forall i | 0 <= i < |after.processes| && after.processes[i].job.Key() == key
      ensures after.processes[i].phase in {First, Failed, Served(base[key])}
    {
      if i < |s.processes| {
        StepExtends(s, a);
        assert s.processes[i].phase in {First, Failed, Served(base[key])};
      }
    }
  }

  /** Process `i` reads the policy under `key` with a canonical default source, and has finished. */
  predicate Reads(s: State, i: nat, key: string) {
    i < |s.processes|
    && s.processes[i].job.Policy? && s.processes[i].job.Key() == key && Canonical(s.processes[i].job.fallback)
    && Finished(s.processes[i])
  }

  /** In a run on `base`, whoever finishes returns the same policy. */
  ghost predicate Unanimous(base: map<string, string>, actions: seq<Action>, key: string) {
    var s := Run(base, actions);
    forall i: nat, j: nat | Reads(s, i, key) && Reads(s, j, key) ::
      SamePolicy(PolicyResult(s.processes[i]), PolicyResult(s.processes[j]))
  }

  lemma CompleteUnanimous(base: map<string, string>, actions: seq<Action>, key: string)
    requires key in base && Complete(base[key])
    ensures Unanimous(base, actions, key)
  {
    hide Run, Complete, Canonical, SamePolicy, Decode;
    RunOnlyServes(base, actions, key);
    var s := Run(base, actions);
    forall i: nat, j: nat | Reads(s, i, key) && Reads(s, j, key)
      ensures SamePolicy(PolicyResult(s.processes[i]), PolicyResult(s.processes[j]))
    {
      CompleteAgrees(base[key], s.processes[i].job.fallback, s.processes[j].job.fallback);
    }
  }

  /** Two processes that look the policy up, one after the other. */
  function TwoReaders(policyKey: string, a: Source, b: Source): seq<Action> {
    [Spawn(Policy(policyKey, a)), Spawn(Policy(policyKey, b)), Get(0, false), Get(1, false)]
  }

  lemma TwoReadersRead(base: map<string, string>, policyKey: string, a: Source, b: Source)
    requires Policy(policyKey, a).Key() in base
    ensures
      var text := base[Policy(policyKey, a).Key()];
      Run(base, TwoReaders(policyKey, a, b))
      == State(base, [Process(Policy(policyKey, a), Served(text)), Process(Policy(policyKey, b), Served(text))])
  {
    hide Encode, Trim, TrimSpace, Run, Step;
    var t := TwoReaders(policyKey, a, b);
    var x, y := Process(Policy(policyKey, a), First), Process(Policy(policyKey, b), First);
    RunNone(base);
    assert t[..1][..0] == [] && t[..2][..1] == t[..1] && t[..3][..2] == t[..2] && t[..4][..3] == t[..3];
    assert t[..4] == t;
    RunLast(base, t[..1]);
    RunLast(base, t[..2]);
    RunLast(base, t[..3]);
    RunLast(base, t[..4]);
    assert Run(base, t[..2]) == State(base, [x, y]) by { Spawned(base, x.job, y.job); }
    BothLook(base, x, y);
  }

  lemma Spawned(base: map<string, string>, a: Job, b: Job)
    ensures Step(Step(State(base, []), Spawn(a)), Spawn(b)) == State(base, [Process(a, First), Process(b, First)])
  {
  }

  lemma BothLook(base: map<string, string>, x: Process, y: Process)
    requires x.phase.First? && y.phase.First? && x.job.Key() == y.job.Key() && x.job.Key() in base && x.job.Key() != ""
    ensures
      var text := base[x.job.Key()];
      Step(Step(State(base, [x, y]), Get(0, false)), Get(1, false))
      == State(base, [x.(phase := Served(text)), y.(phase := Served(text))])
  {
    hide Encode, Trim, TrimSpace;
  }

  /**
   A policy that is already in the store makes all its readers agree, in every run, exactly when
   its text names both a provider and a key: what it leaves open each reader fills in for itself.
   */
  lemma StoredPolicyAgrees(base: map<string, string>, policyKey: string, fallback: Source)
    requires Policy(policyKey, fallback).Key() in base
    ensures
      var key := Policy(policyKey, fallback).Key();
      (forall actions :: Unanimous(base, actions, key)) <==> Complete(base[key])
  {
    hide Run, Complete, Canonical, SamePolicy, Decode, Trim, TrimSpace;
    var key := Policy(policyKey, fallback).Key();
    if Complete(base[key]) {
      forall actions ensures Unanimous(base, actions, key) {
        CompleteUnanimous(base, actions, key);
      }
    } else {
      var a, b := IncompleteDisagrees(base[key]);
      var t := TwoReaders(policyKey, a, b);
      TwoReadersRead(base, policyKey, a, b);
      var s := Run(base, t);
      assert Reads(s, 0, key) && Reads(s, 1, key);
      assert !Unanimous(base, t, key);
    }
  }

  // ---------------------------------------------------------------- one process at work

  /** How the store treats one process: outages, the fate of its write, and what others add before it. */
  datatype Weather = Weather(firstOutage: bool, rivals: map<string, string>, fate: Fate, secondOutage: bool)

  /** The process's lookup, write and second lookup, with others writing in between. */
  function Working(store: map<string, string>, job: Job, w: Weather): (map<string, string>, Phase) {
    var first := Looked(store, Process(job, First), w.firstOutage);
    if !first.Seeding? || job.Seed().None? then (store, first)
    else
      var raced := w.rivals + store;
      var wrote := Wrote(raced, Process(job, Seeding), w.fate);
      var after := if w.fate.Lost? then raced else PutIfAbsent(raced, job.Key(), job.Seed().value);
      (after, if wrote.Second? then Looked(after, Process(job, Second), w.secondOutage) else wrote)
  }

  /** However the store behaves, nothing present changes and a text that is returned is the store's. */
  lemma WorkingKeeps(store: map<string, string>, job: Job, w: Weather)
    ensures
      var (after, phase) := Working(store, job, w);
      && Extends(store, after) && Informed(after, Process(job, phase))
      && (job.Key() in store ==> after == store)
      && (job.Seed().None? ==> after == store)
  {
    hide Encode, Trim, TrimSpace;
  }

  datatype Lookup = Found(text: string) | Missing | Unavailable

  class Store {
    var entries: map<string, string>

    constructor (entries: map<string, string>)
      ensures this.entries == entries
    {
      this.entries := entries;
    }

    method Get(key: string, outage: bool) returns (r: Lookup)
      ensures r == if outage || key == "" then Unavailable else if key in entries then Found(entries[key]) else Missing
    {
      if key == "" || outage {
        return Unavailable;
      }
      r := if key in entries then Found(entries[key]) else Missing;
    }

    /** One transaction: the write happens if the key has no value yet. */
    method PutIfAbsent(key: string, value: string, fate: Fate) returns (created: Option<bool>)
      requires key != ""
      modifies this
      ensures entries == if fate.Lost? || key in old(entries) then old(entries) else old(entries)[key := value]
      ensures created == if fate.Answered? then Some(key !in old(entries)) else None
    {
      created := if fate.Answered? then Some(key !in entries) else None;
      if fate != Lost && key !in entries {
        entries := entries[key := value];
      }
    }

    /** What other processes write in the meantime. */
    method Race(rivals: map<string, string>)
      modifies this
      ensures entries == rivals + old(entries)
    {
      entries := rivals + entries;
    }
  }

  class ConventionProvider {
    const remote: Store
    const disableAutoSeed: bool

    constructor (remote: Store, disableAutoSeed: bool)
      ensures this.remote == remote && this.disableAutoSeed == disableAutoSeed
    {
      this.remote, this.disableAutoSeed := remote, disableAutoSeed;
    }

    method Load(key: string, local: Local, w: Weather) returns (data: Option<string>)
      modifies remote
      ensures
        var (after, phase) := Working(old(remote.entries), ConfigFile(key, local, disableAutoSeed), w);
        && remote.entries == after
        && data == if phase.Served? then Some(phase.text) else None
      ensures data.Some? ==> key in remote.entries && remote.entries[key] == data.value
      ensures key == "" || w.firstOutage ==> data == None && remote.entries == old(remote.entries)
      ensures key != "" && !w.firstOutage && key in old(remote.entries) ==>
        data == Some(old(remote.entries)[key]) && remote.entries == old(remote.entries)
      ensures key != "" && !w.firstOutage && key !in old(remote.entries) && (disableAutoSeed || !local.Contents?) ==>
        data == None && remote.entries == old(remote.entries)
      ensures key != "" && !w.firstOutage && key !in old(remote.entries) && !disableAutoSeed && local.Contents? ==>
        var winner := if key in w.rivals then w.rivals[key] else local.data;
        && data == (if w.fate.Answered? && !w.secondOutage then Some(winner) else None)
        && remote.entries == (if w.fate.Lost? then w.rivals + old(remote.entries)
                              else (w.rivals + old(remote.entries))[key := winner])
    {
      WorkingKeeps(remote.entries, ConfigFile(key, local, disableAutoSeed), w);
      var found := remote.Get(key, w.firstOutage);
      if found.Found? {
        return Some(found.text);
      }
      if found != Missing || disableAutoSeed {
        return None;
      }
      if local.NotExist? || local.Unreadable? {
        return None;
      }
      remote.Race(w.rivals);
      var created := remote.PutIfAbsent(key, local.data, w.fate);
      if created.None? {
        return None;
      }
      found := remote.Get(key, w.secondOutage);
      data := if found.Found? then Some(found.text) else None;
    }
  }

  /** resolvePolicySource. */
  method ResolvePolicySource(store: Store, policyKey: string, fallback: Source, w: Weather) returns (source: Option<Source>)
    modifies store
    ensures
      var (after, phase) := Working(old(store.entries), Policy(policyKey, fallback), w);
      && store.entries == after
      && source == PolicyResult(Process(Policy(policyKey, fallback), phase))
    ensures
      var trimmed := Trim(TrimSpace(policyKey), SLASH);
      var key := if trimmed == "" then DEFAULT_POLICY_KEY else trimmed;
      var entries := old(store.entries);
      if w.firstOutage then source == None && store.entries == entries
      else if key in entries then source == Decode(entries[key], fallback) && store.entries == entries
      else
        var winner := if key in w.rivals then w.rivals[key] else Encode(fallback);
        && source == (if !w.fate.Answered? then None
                      else if key !in w.rivals then Some(fallback)
                      else if w.secondOutage then None
                      else Decode(w.rivals[key], fallback))
        && store.entries == (if w.fate.Lost? then w.rivals + entries else (w.rivals + entries)[key := winner])
  {
    hide Encode, Decode, Trim;
    var key := Trim(TrimSpace(policyKey), SLASH);
    if key == "" {
      key := DEFAULT_POLICY_KEY;
    }
    var found := store.Get(key, w.firstOutage);
    if found.Found? {
      source := Decode(found.text, fallback);
      return;
    }
    if found != Missing {
      return None;
    }
    store.Race(w.rivals);
    var created := store.PutIfAbsent(key, Encode(fallback), w.fate);
    if created.None? {
      return None;
    }
    if created.value {
      return Some(fallback);
    }
    found := store.Get(key, w.secondOutage);
    source := if found.Found? then Decode(found.text, fallback) else None;
  }
}
