/** Concurrent writers of one engine. The log lock is released before the table is
    written, so a write is three atomic steps: append, apply, store. */
module Writers {
  import opened Common
  import opened Codec
  import opened MemTable
  import opened Engine

  type WriterId = nat

  datatype LogRecord = LogRecord(seqNo: nat, key: seq<byte>, value: InternalValue)

  /** How far a writer got with the record it logged. */
  datatype Phase = Appended(rec: LogRecord) | Applied(rec: LogRecord)

  datatype State = State(
    log: seq<LogRecord>,
    nextSeq: nat,
    table: Table,
    sequence: nat,
    writers: map<WriterId, Phase>,
    /** Keys logged by one writer while another had not applied its record for that key. */
    overlapped: set<seq<byte>>
  )

  datatype Action = Append(w: WriterId, key: seq<byte>, value: InternalValue) | Apply(w: WriterId) | Store(w: WriterId)

  function Init(first: nat): State
    requires first >= 1
  {
    State([], first, map[], first - 1, map[], {})
  }

  predicate Unapplied(s: State, w: WriterId, key: seq<byte>) {
    w in s.writers && s.writers[w].Appended? && s.writers[w].rec.key == key
  }

  predicate Enabled(s: State, a: Action) {
    match a
    case Append(w, _, _) => w !in s.writers
    case Apply(w) => w in s.writers && s.writers[w].Appended?
    case Store(w) => w in s.writers && s.writers[w].Applied?
  }

  ghost function Do(s: State, a: Action): State
    requires Enabled(s, a)
  {
    match a
    case Append(w, key, value) =>
      var rec := LogRecord(s.nextSeq, key, value);
      s.(log := s.log + [rec], nextSeq := s.nextSeq + 1, writers := s.writers[w := Appended(rec)],
         overlapped := s.overlapped + if exists v :: Unapplied(s, v, key) then {key} else {})
    case Apply(w) =>
      var rec := s.writers[w].rec;
      s.(table := s.table[rec.key := rec.value], writers := s.writers[w := Applied(rec)])
    case Store(w) =>
      s.(sequence := s.writers[w].rec.seqNo, writers := s.writers - {w})
  }

  /** Any interleaving of the writers' steps. */
  ghost predicate Run(first: nat, actions: seq<Action>, t: State)
    requires first >= 1
  {
    if actions == [] then t == Init(first)
    else
      var n := |actions| - 1;
      exists s :: Run(first, actions[..n], s) && Enabled(s, actions[n]) && t == Do(s, actions[n])
  }

  /** The table that the log describes. */
  function Folded(log: seq<LogRecord>): Table {
    if log == [] then map[] else Folded(log[..|log| - 1])[log[|log| - 1].key := log[|log| - 1].value]
  }

  predicate AgreeAt(a: Table, b: Table, k: seq<byte>) {
    (k in a <==> k in b) && (k in a && k in b ==> a[k] == b[k])
  }

  // ---------------------------------------------------------------- what every step keeps

  /** Records are numbered first, first + 1, .. without gaps. */
  ghost predicate Consecutive(first: nat, s: State) {
    && s.nextSeq == first + |s.log|
    && forall i :: 0 <= i < |s.log| ==> s.log[i].seqNo == first + i
  }

  /** Whatever a writer holds or the table shows was logged before. */
  ghost predicate LoggedFirst(s: State) {
    && (forall w :: w in s.writers ==> s.writers[w].rec in s.log)
    && (forall k :: k in s.table ==> exists rec :: rec in s.log && rec.key == k && rec.value == s.table[k])
  }

  /** A key without overlap has at most one unapplied record, which is the last one of its
      key in the log; without an unapplied record the table shows the last one. */
  ghost predicate InStep(s: State, k: seq<byte>) {
    && (forall v, w :: Unapplied(s, v, k) && Unapplied(s, w, k) ==> v == w)
    && (forall w :: Unapplied(s, w, k) ==> k in Folded(s.log) && Folded(s.log)[k] == s.writers[w].rec.value)
    && ((forall w :: !Unapplied(s, w, k)) ==> AgreeAt(s.table, Folded(s.log), k))
  }

  ghost predicate Invariant(first: nat, s: State) {
    && Consecutive(first, s)
    && LoggedFirst(s)
    && s.sequence < s.nextSeq
    && forall k :: k !in s.overlapped ==> InStep(s, k)
  }

  lemma FoldedSnoc(log: seq<LogRecord>, rec: LogRecord)
    ensures Folded(log + [rec]) == Folded(log)[rec.key := rec.value]
  {
    assert (log + [rec])[..|log|] == log;
  }

  lemma AppendKeepsInStep(s: State, w: WriterId, key: seq<byte>, value: InternalValue, k: seq<byte>)
    requires Enabled(s, Append(w, key, value)) && k !in Do(s, Append(w, key, value)).overlapped && InStep(s, k)
    ensures InStep(Do(s, Append(w, key, value)), k)
  {
    var t := Do(s, Append(w, key, value));
    FoldedSnoc(s.log, LogRecord(s.nextSeq, key, value));
    assert forall v :: v != w ==> (Unapplied(t, v, k) <==> Unapplied(s, v, k));
    assert Unapplied(t, w, k) <==> k == key;
  }

  lemma ApplyKeepsInStep(s: State, w: WriterId, k: seq<byte>)
    requires Enabled(s, Apply(w)) && InStep(s, k)
    ensures InStep(Do(s, Apply(w)), k)
  {
    var t := Do(s, Apply(w));
    assert forall v :: v != w ==> (Unapplied(t, v, k) <==> Unapplied(s, v, k));
    assert !Unapplied(t, w, k);
    assert s.writers[w].rec.key == k ==> Unapplied(s, w, k);
  }

  lemma StoreKeepsInStep(s: State, w: WriterId, k: seq<byte>)
    requires Enabled(s, Store(w)) && InStep(s, k)
    ensures InStep(Do(s, Store(w)), k)
  {
    assert forall v :: Unapplied(Do(s, Store(w)), v, k) <==> Unapplied(s, v, k);
  }

  lemma StepKeepsLoggedFirst(s: State, a: Action)
    requires Enabled(s, a) && LoggedFirst(s)
    ensures LoggedFirst(Do(s, a))
  {
    var t := Do(s, a);
    assert s.log <= t.log;
    forall k | k in t.table
      ensures exists rec :: rec in t.log && rec.key == k && rec.value == t.table[k]
    {
      if a.Apply? && s.writers[a.w].rec.key == k {
        assert s.writers[a.w].rec in t.log;
      } else {
        var rec :| rec in s.log && rec.key == k && rec.value == s.table[k];
        assert rec in t.log;
      }
    }
  }

  lemma StepKeepsInvariant(first: nat, s: State, a: Action)
    requires first >= 1 && Enabled(s, a) && Invariant(first, s)
    ensures Invariant(first, Do(s, a))
  {
    var t := Do(s, a);
    StepKeepsLoggedFirst(s, a);
    assert t.sequence < t.nextSeq by {
      if a.Store? {
        var i :| 0 <= i < |s.log| && s.log[i] == s.writers[a.w].rec;
      }
    }
    forall k | k !in t.overlapped
      ensures InStep(t, k)
    {
      match a
      case Append(w, key, value) => AppendKeepsInStep(s, w, key, value, k);
      case Apply(w) => ApplyKeepsInStep(s, w, k);
      case Store(w) => StoreKeepsInStep(s, w, k);
    }
  }

  // ---------------------------------------------------------------- whole runs

  /** In every interleaving: consecutive numbers, nothing shown that was not logged, and a
      sequence number that never runs ahead of the log. */
  lemma {:induction false} RunKeepsInvariant(first: nat, actions: seq<Action>, t: State)
    requires first >= 1 && Run(first, actions, t)
    ensures Invariant(first, t)
  {
    if actions != [] {
      var n := |actions| - 1;
      var s :| Run(first, actions[..n], s) && Enabled(s, actions[n]) && t == Do(s, actions[n]);
      RunKeepsInvariant(first, actions[..n], s);
      StepKeepsInvariant(first, s, actions[n]);
    }
  }

  /** When all writers are done, the table shows the folded log at every key whose writers
      did not overlap. */
  lemma QuiescentTable(first: nat, actions: seq<Action>, t: State, k: seq<byte>)
    requires first >= 1 && Run(first, actions, t)
    requires t.writers == map[] && k !in t.overlapped
    ensures AgreeAt(t.table, Folded(t.log), k)
  {
    RunKeepsInvariant(first, actions, t);
    assert InStep(t, k);
  }

  lemma RunSnoc(first: nat, actions: seq<Action>, s: State, a: Action)
    requires first >= 1 && Run(first, actions, s) && Enabled(s, a)
    ensures Run(first, actions + [a], Do(s, a))
  {
    assert (actions + [a])[..|actions|] == actions;
  }

  lemma RunBefore(first: nat, actions: seq<Action>, a: Action, t: State) returns (s: State)
    requires first >= 1 && Run(first, actions + [a], t)
    ensures Run(first, actions, s) && Enabled(s, a) && t == Do(s, a)
  {
    assert (actions + [a])[..|actions|] == actions;
    s :| Run(first, actions, s) && Enabled(s, a) && t == Do(s, a);
  }

  /** Two writers log k, then apply and store in the opposite order. */
  function CrossedActions(k: seq<byte>, a: InternalValue, b: InternalValue): seq<Action> {
    [Append(1, k, a), Append(2, k, b), Apply(2), Apply(1), Store(2), Store(1)]
  }

  function CrossedState(k: seq<byte>, a: InternalValue, b: InternalValue, i: nat): State {
    var first, second := LogRecord(1, k, a), LogRecord(2, k, b);
    match i
    case 0 => Init(1)
    case 1 => State([first], 2, map[], 0, map[1 := Appended(first)], {})
    case 2 => State([first, second], 3, map[], 0, map[1 := Appended(first), 2 := Appended(second)], {k})
    case 3 => State([first, second], 3, map[k := b], 0, map[1 := Appended(first), 2 := Applied(second)], {k})
    case 4 => State([first, second], 3, map[k := a], 0, map[1 := Applied(first), 2 := Applied(second)], {k})
    case 5 => State([first, second], 3, map[k := a], 2, map[1 := Applied(first)], {k})
    case _ => State([first, second], 3, map[k := a], 1, map[], {k})
  }

  lemma CrossedStep(k: seq<byte>, a: InternalValue, b: InternalValue, i: nat)
    requires i < 6
    ensures Enabled(CrossedState(k, a, b, i), CrossedActions(k, a, b)[i])
    ensures Do(CrossedState(k, a, b, i), CrossedActions(k, a, b)[i]) == CrossedState(k, a, b, i + 1)
  {
    if i == 1 {
      assert Unapplied(CrossedState(k, a, b, 1), 1, k);
    }
  }

  lemma {:induction false} CrossedRun(k: seq<byte>, a: InternalValue, b: InternalValue, i: nat)
    requires i <= 6
    ensures Run(1, CrossedActions(k, a, b)[..i], CrossedState(k, a, b, i))
  {
    var actions := CrossedActions(k, a, b);
    assert |actions| == 6;
    if i == 0 {
      assert actions[..0] == [];
    } else {
      hide Do, Run, Enabled, CrossedActions, CrossedState;
      CrossedRun(k, a, b, i - 1);
      CrossedStep(k, a, b, i - 1);
      RunSnoc(1, actions[..i - 1], CrossedState(k, a, b, i - 1), actions[i - 1]);
      assert actions[..i] == actions[..i - 1] + [actions[i - 1]];
    }
  }

  /** Overlapping writers can break both: at the end the table shows the older value, and
      the last step moves the sequence number backwards. */
  lemma OverlapBreaksAgreement(k: seq<byte>, a: InternalValue, b: InternalValue)
    requires a != b
    ensures exists actions, s, t ::
      && Run(1, actions, s) && Run(1, actions + [Store(1)], t)
      && t.writers == map[] && !AgreeAt(t.table, Folded(t.log), k)
      && t.sequence < s.sequence
  {
    hide Do, Run;
    var s, t, actions := CrossedState(k, a, b, 5), CrossedState(k, a, b, 6), CrossedActions(k, a, b)[..5];
    CrossedRun(k, a, b, 5);
    CrossedRun(k, a, b, 6);
    assert CrossedActions(k, a, b)[..6] == actions + [Store(1)];
    FoldedSnoc([LogRecord(1, k, a)], LogRecord(2, k, b));
    assert t.log == [LogRecord(1, k, a)] + [LogRecord(2, k, b)];
    assert t.table[k] == a && Folded(t.log)[k] == b;
  }

  // ---------------------------------------------------------------- what the schedule decides

  /** How many records the schedule logs. */
  function Appends(actions: seq<Action>): nat {
    if actions == [] then 0
    else Appends(actions[..|actions| - 1]) + if actions[|actions| - 1].Append? then 1 else 0
  }

  /** The record that writer w logged last. */
  function Holding(first: nat, actions: seq<Action>, w: WriterId): Option<LogRecord> {
    if actions == [] then None
    else
      var init, a := actions[..|actions| - 1], actions[|actions| - 1];
      if a.Append? && a.w == w then Some(LogRecord(first + Appends(init), a.key, a.value)) else Holding(first, init, w)
  }

  /** The record of the last append for key k. */
  function LastLogged(first: nat, actions: seq<Action>, k: seq<byte>): Option<LogRecord> {
    if actions == [] then None
    else
      var init, a := actions[..|actions| - 1], actions[|actions| - 1];
      if a.Append? && a.key == k then Some(LogRecord(first + Appends(init), k, a.value)) else LastLogged(first, init, k)
  }

  /** The record of the last apply for key k. */
  function LastApplied(first: nat, actions: seq<Action>, k: seq<byte>): Option<LogRecord> {
    if actions == [] then None
    else
      var init, a := actions[..|actions| - 1], actions[|actions| - 1];
      if !a.Apply? then LastApplied(first, init, k)
      else
        match Holding(first, init, a.w)
        case Some(rec) => if rec.key == k then Some(rec) else LastApplied(first, init, k)
        case None => LastApplied(first, init, k)
  }

  /** The record whose number was stored last. */
  function LastStored(first: nat, actions: seq<Action>): Option<LogRecord> {
    if actions == [] then None
    else
      var init, a := actions[..|actions| - 1], actions[|actions| - 1];
      if a.Store? then Holding(first, init, a.w) else LastStored(first, init)
  }

  function ValueIn(rec: Option<LogRecord>): Option<InternalValue> {
    match rec
    case Some(r) => Some(r.value)
    case None => None
  }

  function At(t: Table, k: seq<byte>): Option<InternalValue> {
    if k in t then Some(t[k]) else None
  }

  function NumberIn(first: nat, rec: Option<LogRecord>): int {
    match rec
    case Some(r) => r.seqNo
    case None => first - 1
  }

  /** The state is what the schedule says: the held records, and table, log and number at each key. */
  ghost predicate Scheduled(first: nat, actions: seq<Action>, t: State) {
    && t.nextSeq == first + Appends(actions)
    && (forall w :: w in t.writers ==> Holding(first, actions, w) == Some(t.writers[w].rec))
    && (forall k :: At(t.table, k) == ValueIn(LastApplied(first, actions, k)))
    && (forall k :: At(Folded(t.log), k) == ValueIn(LastLogged(first, actions, k)))
    && t.sequence == NumberIn(first, LastStored(first, actions))
  }

  lemma StepScheduled(first: nat, actions: seq<Action>, a: Action, s: State)
    requires Scheduled(first, actions, s) && Enabled(s, a)
    ensures Scheduled(first, actions + [a], Do(s, a))
  {
    assert (actions + [a])[..|actions|] == actions;
    if a.Append? {
      FoldedSnoc(s.log, LogRecord(s.nextSeq, a.key, a.value));
    }
  }

  lemma {:induction false} RunScheduled(first: nat, actions: seq<Action>, t: State)
    requires first >= 1 && Run(first, actions, t)
    ensures Scheduled(first, actions, t)
  {
    if actions != [] {
      var n := |actions| - 1;
      assert actions == actions[..n] + [actions[n]];
      var s := RunBefore(first, actions[..n], actions[n], t);
      hide Run, Do, Scheduled;
      RunScheduled(first, actions[..n], s);
      StepScheduled(first, actions[..n], actions[n], s);
    }
  }

  /** Whatever the schedule names was logged, under its key. */
  ghost predicate NamesLogged(log: seq<LogRecord>, rec: Option<LogRecord>) {
    rec.Some? ==> rec.value in log
  }

  lemma {:induction false} RunNamesLogged(first: nat, actions: seq<Action>, t: State)
    requires first >= 1 && Run(first, actions, t)
    ensures forall w :: NamesLogged(t.log, Holding(first, actions, w))
    ensures forall k :: NamesLogged(t.log, LastLogged(first, actions, k))
    ensures forall k :: NamesLogged(t.log, LastApplied(first, actions, k))
    ensures NamesLogged(t.log, LastStored(first, actions))
  {
    if actions != [] {
      var n := |actions| - 1;
      assert actions == actions[..n] + [actions[n]];
      var s := RunBefore(first, actions[..n], actions[n], t);
      RunNamesLogged(first, actions[..n], s);
      RunScheduled(first, actions[..n], s);
      assert s.log <= t.log;
      assert actions[n].Append? ==> t.log[|t.log| - 1] == LogRecord(s.nextSeq, actions[n].key, actions[n].value);
    }
  }

  lemma {:induction false} NamedKeys(first: nat, actions: seq<Action>, k: seq<byte>)
    ensures LastLogged(first, actions, k).Some? ==> LastLogged(first, actions, k).value.key == k
    ensures LastApplied(first, actions, k).Some? ==> LastApplied(first, actions, k).value.key == k
  {
    if actions != [] { NamedKeys(first, actions[..|actions| - 1], k); }
  }

  /** No two records of key k carry the same value. */
  ghost predicate DistinctValues(log: seq<LogRecord>, k: seq<byte>) {
    forall i, j :: 0 <= i < j < |log| && log[i].key == k && log[j].key == k ==> log[i].value != log[j].value
  }

  /** In any state of any run, table and folded log agree at k exactly when the value applied last is
      the value logged last. */
  lemma AgreeIffLastApplied(first: nat, actions: seq<Action>, t: State, k: seq<byte>)
    requires first >= 1 && Run(first, actions, t)
    ensures AgreeAt(t.table, Folded(t.log), k) <==>
            ValueIn(LastApplied(first, actions, k)) == ValueIn(LastLogged(first, actions, k))
    ensures DistinctValues(t.log, k) ==>
              (AgreeAt(t.table, Folded(t.log), k) <==> LastApplied(first, actions, k) == LastLogged(first, actions, k))
  {
    RunScheduled(first, actions, t);
    RunNamesLogged(first, actions, t);
    NamedKeys(first, actions, k);
    hide Run, Folded;
    assert At(t.table, k) == ValueIn(LastApplied(first, actions, k));
    assert At(Folded(t.log), k) == ValueIn(LastLogged(first, actions, k));
    assert NamesLogged(t.log, LastApplied(first, actions, k)) && NamesLogged(t.log, LastLogged(first, actions, k));
  }

  /** The stored number is that of the last record exactly when the last store stored it. */
  lemma SequenceCurrentIff(first: nat, actions: seq<Action>, t: State)
    requires first >= 1 && Run(first, actions, t) && t.log != []
    ensures t.sequence == t.nextSeq - 1 <==> LastStored(first, actions) == Some(t.log[|t.log| - 1])
  {
    RunScheduled(first, actions, t);
    RunNamesLogged(first, actions, t);
    RunKeepsInvariant(first, actions, t);
  }

  /** At no step of the schedule does the sequence number move backwards. */
  ghost predicate NeverBackwards(first: nat, actions: seq<Action>)
    requires first >= 1
  {
    actions == [] ||
    (NeverBackwards(first, actions[..|actions| - 1])
     && forall s, t :: Run(first, actions[..|actions| - 1], s) && Run(first, actions, t) ==> s.sequence <= t.sequence)
  }

  /** Records are stored in the order of their numbers. */
  predicate StoredInOrder(first: nat, actions: seq<Action>) {
    actions == [] ||
    (var init, a := actions[..|actions| - 1], actions[|actions| - 1];
     StoredInOrder(first, init)
     && (a.Store? ==> NumberIn(first, LastStored(first, init)) <= NumberIn(first, Holding(first, init, a.w))))
  }

  lemma SequenceStep(first: nat, init: seq<Action>, a: Action, s: State, u: State)
    requires first >= 1 && Run(first, init, s) && Run(first, init + [a], u)
    ensures s.sequence == NumberIn(first, LastStored(first, init))
    ensures u.sequence == if a.Store? then NumberIn(first, Holding(first, init, a.w)) else s.sequence
  {
    hide Run;
    RunScheduled(first, init, s);
    RunScheduled(first, init + [a], u);
    assert (init + [a])[..|init|] == init;
  }

  /** The sequence number never moves backwards exactly when the stores follow the log order. */
  lemma {:induction false} NeverBackwardsIff(first: nat, actions: seq<Action>, t: State)
    requires first >= 1 && Run(first, actions, t)
    ensures NeverBackwards(first, actions) <==> StoredInOrder(first, actions)
  {
    if actions != [] {
      var init, a := actions[..|actions| - 1], actions[|actions| - 1];
      assert actions == init + [a];
      hide Run, Do, LastStored, Holding;
      var before := RunBefore(first, init, a, t);
      NeverBackwardsIff(first, init, before);
      SequenceStep(first, init, a, before, t);
      forall s, u | Run(first, init, s) && Run(first, actions, u)
        ensures s.sequence == before.sequence && u.sequence == t.sequence
      {
        SequenceStep(first, init, a, s, u);
      }
    }
  }

  // ---------------------------------------------------------------- one writer at a time

  /** The steps of a history of writes that never run concurrently. */
  function OneAtATime(h: seq<Write>): seq<Action> {
    if h == [] then []
    else
      var w := h[|h| - 1];
      OneAtATime(h[..|h| - 1]) + [Append(0, EncodeKey(KeyOf(w)), ValueOf(w)), Apply(0), Store(0)]
  }

  lemma LoneWrite(s: State, key: seq<byte>, value: InternalValue)
    requires s.writers == map[] && s.overlapped == {}
    ensures var rec := LogRecord(s.nextSeq, key, value);
            Do(Do(Do(s, Append(0, key, value)), Apply(0)), Store(0)) ==
            s.(log := s.log + [rec], nextSeq := s.nextSeq + 1, table := s.table[key := value], sequence := s.nextSeq)
  {
    var rec := LogRecord(s.nextSeq, key, value);
    var s1 := Do(s, Append(0, key, value));
    assert forall v :: !Unapplied(s, v, key);
    assert s1.overlapped == {} && s1.writers == map[0 := Appended(rec)];
    var s2 := Do(s1, Apply(0));
    assert s2.writers == map[0 := Applied(rec)];
    assert s2.writers - {0} == map[];
  }

  /** A whole write by a writer that is alone. */
  lemma ThreeSteps(first: nat, h: seq<Write>, w: Write, s: State)
    requires s.writers == map[] && s.overlapped == {} && s.table == Engine.Applied(h) == Folded(s.log)
    ensures var a := Append(0, EncodeKey(KeyOf(w)), ValueOf(w));
            var t := Do(Do(Do(s, a), Apply(0)), Store(0));
            && t.writers == map[] && t.overlapped == {} && t.table == Engine.Applied(h + [w]) == Folded(t.log)
            && |t.log| == |s.log| + 1 && t.nextSeq == s.nextSeq + 1 && t.sequence == s.nextSeq
  {
    var key, value := EncodeKey(KeyOf(w)), ValueOf(w);
    assert Engine.Applied(h + [w]) == Engine.Applied(h)[key := value] by {
      assert (h + [w])[..|h|] == h;
    }
    hide EncodeKey, KeyOf, ValueOf, Engine.Applied, Folded;
    LoneWrite(s, key, value);
    FoldedSnoc(s.log, LogRecord(s.nextSeq, key, value));
  }

  /** The protocol then leaves the state of the sequential engine. */
  lemma {:induction false} OneAtATimeIsSequential(first: nat, h: seq<Write>, t: State)
    requires first >= 1 && Run(first, OneAtATime(h), t)
    ensures t.writers == map[] && t.overlapped == {} && |t.log| == |h|
    ensures t.nextSeq == first + |h| && t.sequence == t.nextSeq - 1
    ensures t.table == Engine.Applied(h) == Folded(t.log)
  {
    hide EncodeKey, KeyOf, ValueOf;
    if h != [] {
      var init, w := h[..|h| - 1], h[|h| - 1];
      var steps, a := OneAtATime(init), Append(0, EncodeKey(KeyOf(w)), ValueOf(w));
      assert OneAtATime(h) == steps + [a] + [Apply(0)] + [Store(0)];
      var s3 := RunBefore(first, steps + [a] + [Apply(0)], Store(0), t);
      var s2 := RunBefore(first, steps + [a], Apply(0), s3);
      var s1 := RunBefore(first, steps, a, s2);
      OneAtATimeIsSequential(first, init, s1);
      ThreeSteps(first, init, w, s1);
    }
  }
}
