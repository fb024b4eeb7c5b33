// The DPI classifier: guardrails, degradation, counters, and the signature list they govern.
//
// The elapsed time of a classification and the value of rand() are inputs of the call.

module DpiClassifier {
  import opened DpiSignatures
  import opened Modular

  datatype Guardrails = Guardrails(
    timeoutUs: uint32, maxPayloads: uint32, sampleRate: uint32, degradationEnabled: bool)

  /** One cell per class. */
  const CLASSES: nat := 16

  /** A line of a signature file that parsed. */
  datatype Record = Record(id: uint16, classification: uint8, pattern: Pattern, offset: uint32, depth: uint32)

  function FromRecord(r: Record): Signature {
    Signature(r.id, r.classification, r.pattern, r.offset, r.depth, true, 0)
  }

  function FromRecords(rs: seq<Record>): seq<Signature> {
    seq(|rs|, i requires 0 <= i < |rs| => FromRecord(rs[i]))
  }

  // ---------------------------------------------------------------- the classifier as a value

  datatype State = State(signatures: seq<Signature>, guardrails: Guardrails, degraded: bool, counts: seq<int>)

  datatype Call =
    | Classify(payload: Payload, rnd: nat, elapsedUs: uint32)
    | SetGuardrails(guardrails: Guardrails)
    | Update(sig: Signature)
    | Remove(id: uint16)
    | Load(records: seq<Record>, order: seq<Signature>)

  /** What sorting leaves: `order` when that is a sorted permutation, some other one when not. The
      sort is unstable, so a history names the order it left. */
  function SortedAs(all: seq<Signature>, order: seq<Signature>): (r: seq<Signature>)
    ensures ByPriority(r) && multiset(r) == multiset(all)
  {
    if ByPriority(order) && multiset(order) == multiset(all) then order else Sorted(all)
  }

  predicate WellFormed(s: State) {
    |s.counts| == CLASSES && forall c | 0 <= c < CLASSES :: 0 <= s.counts[c] < QWORD
  }

  /** The sampling test divides by the sample rate: is that defined? */
  predicate Samplable(s: State, call: Call) {
    call.Classify? && call.payload != [] && s.degraded ==> s.guardrails.sampleRate > 0
  }

  /** A degraded classifier passes over the packets that the sample misses. */
  predicate Skipped(s: State, call: Call)
    requires call.Classify? && call.payload != [] && Samplable(s, call)
  {
    s.degraded && call.rnd % s.guardrails.sampleRate as nat != 0
  }

  /** The call searches the list and is done within its time. */
  predicate Searches(s: State, call: Call)
    requires Samplable(s, call)
  {
    call.Classify? && call.payload != [] && !Skipped(s, call) && call.elapsedUs <= s.guardrails.timeoutUs
  }

  ghost function Result(s: State, call: Call): uint8
    requires call.Classify? && Samplable(s, call)
  {
    if Searches(s, call) then FirstMatch(s.signatures, call.payload) else UNKNOWN
  }

  /** Neither the sampling test divides by zero nor the counting indexes outside its sixteen cells. */
  ghost predicate Defined(s: State, call: Call) {
    Samplable(s, call) && (call.Classify? ==> Result(s, call) as nat < CLASSES)
  }

  function Bump(counts: seq<int>, c: uint8): seq<int>
    requires |counts| == CLASSES && c as nat < CLASSES
  {
    counts[c as nat := Wrap64(counts[c as nat] + 1)]
  }

  ghost function Next(s: State, call: Call): (s': State)
    requires WellFormed(s) && Defined(s, call)
    ensures WellFormed(s')
  {
    match call
    case SetGuardrails(g) => s.(guardrails := g, degraded := false)
    case Update(sig) => s.(signatures := Updated(s.signatures, sig))
    case Remove(id) => s.(signatures := RemovedId(s.signatures, id))
    case Load(records, order) => s.(signatures := SortedAs(s.signatures + FromRecords(records), order))
    case Classify(payload, rnd, elapsedUs) =>
      if payload == [] || Skipped(s, call) then s
      else if elapsedUs > s.guardrails.timeoutUs then s.(degraded := s.guardrails.degradationEnabled)
      else if Result(s, call) != UNKNOWN then s.(counts := Bump(s.counts, Result(s, call)))
      else s
  }

  // ---------------------------------------------------------------- the classifier as an object

  class DPIClassifier {
    var signatures: seq<Signature>
    var guardrails: Guardrails
    var degraded: bool
    const counts: array<int>

    ghost predicate Valid()
      reads this, counts
    {
      WellFormed(Abs())
    }

    ghost function Abs(): State
      reads this, counts
    {
      State(signatures, guardrails, degraded, counts[..])
    }

    constructor (g: Guardrails)
      ensures Valid() && fresh(counts)
      ensures Abs() == Start(g)
    {
      signatures := [];
      guardrails := g;
      degraded := false;
      counts := new int[CLASSES](i => 0);
      new;
      assert counts[..] == Start(g).counts;
    }

    method Classify(payload: Payload, rnd: nat, elapsedUs: uint32) returns (r: uint8)
      requires Valid() && Defined(Abs(), Call.Classify(payload, rnd, elapsedUs))
      modifies this`degraded, counts
      ensures Valid()
      ensures r == Result(old(Abs()), Call.Classify(payload, rnd, elapsedUs))
      ensures Abs() == Next(old(Abs()), Call.Classify(payload, rnd, elapsedUs))
    {
      if |payload| == 0 {
        return UNKNOWN;
      }
      if degraded && rnd % guardrails.sampleRate as nat != 0 {
        return UNKNOWN;
      }
      r := MatchSignatures(signatures, payload);
      if elapsedUs > guardrails.timeoutUs {
        degraded := guardrails.degradationEnabled;
        return UNKNOWN;
      }
      if r != UNKNOWN {
        counts[r as nat] := Wrap64(counts[r as nat] + 1);
        assert counts[..] == Bump(old(counts[..]), r);
      }
    }

    /** `records` are the lines of the file that parsed, `readable` says whether it could be opened. */
    method LoadSignatures(records: seq<Record>, readable: bool) returns (ok: bool)
      requires Valid()
      modifies this`signatures
      ensures Valid() && ok == readable
      ensures !readable ==> Abs() == old(Abs())
      ensures readable ==> Abs() == Next(old(Abs()), Load(records, signatures))
      ensures readable ==> ByPriority(signatures)
      ensures readable ==> multiset(signatures) == multiset(old(signatures) + FromRecords(records))
    {
      if !readable {
        return false;
      }
      var i := 0;
      while i < |records|
        invariant 0 <= i <= |records|
        invariant signatures == old(signatures) + FromRecords(records)[..i]
      {
        signatures := signatures + [FromRecord(records[i])];
        i := i + 1;
      }
      assert signatures == old(signatures) + FromRecords(records);
      signatures := StdSort(signatures);
      return true;
    }

    method UpdateSignature(sig: Signature)
      requires Valid()
      modifies this`signatures
      ensures Valid() && Abs() == Next(old(Abs()), Update(sig))
    {
      var i := Find(signatures, sig.id);
      if i < |signatures| {
        signatures := signatures[i := sig];
      } else {
        signatures := signatures + [sig];
      }
    }

    method RemoveSignature(id: uint16)
      requires Valid()
      modifies this`signatures
      ensures Valid() && Abs() == Next(old(Abs()), Remove(id))
    {
      var i := Find(signatures, id);
      if i < |signatures| {
        signatures := signatures[..i] + signatures[i + 1..];
      }
    }

    method SetGuardrails(g: Guardrails)
      requires Valid()
      modifies this`guardrails, this`degraded
      ensures Valid() && Abs() == Next(old(Abs()), Call.SetGuardrails(g))
    {
      guardrails := g;
      degraded := false;
    }

    method GetClassificationCount(c: uint8) returns (n: int)
      requires Valid()
      ensures n == if c as nat < CLASSES then Abs().counts[c as nat] else 0
    {
      if (c as nat) < counts.Length {
        return counts[c as nat];
      }
      return 0;
    }
  }

  // ---------------------------------------------------------------- whole histories

  function Start(g: Guardrails): State {
    State([], g, false, seq(CLASSES, i => 0))
  }

  /** A history every call of which is defined. */
  ghost predicate Runs(s: State, calls: seq<Call>)
    requires WellFormed(s)
    decreases |calls|
  {
    calls == [] || (Defined(s, calls[0]) && Runs(Next(s, calls[0]), calls[1..]))
  }

  ghost function Final(s: State, calls: seq<Call>): (s': State)
    requires WellFormed(s) && Runs(s, calls)
    ensures WellFormed(s')
    decreases |calls|
  {
    if calls == [] then s else Final(Next(s, calls[0]), calls[1..])
  }

  /** How many classifications of the history returned class c. */
  ghost function Returned(s: State, calls: seq<Call>, c: uint8): nat
    requires WellFormed(s) && Runs(s, calls)
    decreases |calls|
  {
    if calls == [] then 0
    else Hit(s, calls[0], c) + Returned(Next(s, calls[0]), calls[1..], c)
  }

  /** The call returned class c. */
  ghost function Hit(s: State, call: Call, c: uint8): nat
    requires Defined(s, call)
  {
    if call.Classify? && Result(s, call) == c then 1 else 0
  }

  /** Each counter is the number of calls that returned its class, modulo 2^64; that of UNKNOWN
      never moves. */
  lemma {:induction false} CountersCountResults(s: State, calls: seq<Call>, c: uint8)
    requires WellFormed(s) && Runs(s, calls) && (c as nat) < CLASSES
    ensures Final(s, calls).counts[c as nat]
            == if c == UNKNOWN then s.counts[c as nat] else Wrap64(s.counts[c as nat] + Returned(s, calls, c))
    decreases |calls|
  {
    if calls == [] {
    } else {
      FirstCall(s, calls, c);
      var s1 := Next(s, calls[0]);
      CountersCountResults(s1, calls[1..], c);
      OneCall(s, calls[0], c);
      Wrap64Add(s.counts[c as nat] + Hit(s, calls[0], c), Returned(s1, calls[1..], c));
    }
  }

  /** Before any call every counter is zero; so after a whole history of a new classifier each cell is
      the number of calls that returned its class, modulo 2^64, and that of UNKNOWN is zero. */
  lemma CountersOfHistory(g: Guardrails, calls: seq<Call>, c: uint8)
    requires Runs(Start(g), calls) && (c as nat) < CLASSES
    ensures Final(Start(g), calls).counts[c as nat] == if c == UNKNOWN then 0 else Wrap64(Returned(Start(g), calls, c))
  {
    CountersCountResults(Start(g), calls, c);
  }

  lemma FirstCall(s: State, calls: seq<Call>, c: uint8)
    requires WellFormed(s) && Runs(s, calls) && calls != []
    ensures Runs(Next(s, calls[0]), calls[1..])
    ensures Final(s, calls) == Final(Next(s, calls[0]), calls[1..])
    ensures Returned(s, calls, c) == Hit(s, calls[0], c) + Returned(Next(s, calls[0]), calls[1..], c)
  {
  }

  lemma OneCall(s: State, call: Call, c: uint8)
    requires WellFormed(s) && Defined(s, call) && (c as nat) < CLASSES
    ensures Next(s, call).counts[c as nat]
            == if c == UNKNOWN then s.counts[c as nat] else Wrap64(s.counts[c as nat] + Hit(s, call, c))
  {
    Wrap64Fits(s.counts[c as nat]);
  }

  /** The invariant of the degradation state machine. */
  predicate DegradedOnlyIfEnabled(s: State) {
    s.degraded ==> s.guardrails.degradationEnabled
  }

  lemma {:induction false} RunsKeepDegradedOnlyIfEnabled(s: State, calls: seq<Call>)
    requires WellFormed(s) && Runs(s, calls) && DegradedOnlyIfEnabled(s)
    ensures DegradedOnlyIfEnabled(Final(s, calls))
    decreases |calls|
  {
    if calls == [] {
    } else {
      RunsKeepDegradedOnlyIfEnabled(Next(s, calls[0]), calls[1..]);
    }
  }

  /** What one classification does, case by case: an empty payload and, while degraded, a packet that
      the sample misses change nothing; a slow search has no result and degrades if that is enabled; a
      search in time gives the first match and counts it. */
  lemma ClassifyOutcomes(s: State, payload: Payload, rnd: nat, elapsedUs: uint32)
    requires WellFormed(s) && Defined(s, Classify(payload, rnd, elapsedUs))
    ensures var call := Classify(payload, rnd, elapsedUs);
            var r, s' := Result(s, call), Next(s, call);
            && (payload == [] ==> r == UNKNOWN && s' == s)
            && (payload != [] && s.degraded ==> s.guardrails.sampleRate > 0)
            && (payload != [] && s.degraded && rnd % s.guardrails.sampleRate as nat != 0 ==> r == UNKNOWN && s' == s)
            && (payload != [] && !(s.degraded && rnd % s.guardrails.sampleRate as nat != 0) ==>
                  && (elapsedUs > s.guardrails.timeoutUs ==>
                        r == UNKNOWN && s' == s.(degraded := s.guardrails.degradationEnabled))
                  && (elapsedUs <= s.guardrails.timeoutUs ==>
                        && r == FirstMatch(s.signatures, payload) && s' == s.(counts := s'.counts)
                        && forall c | 0 <= c < CLASSES ::
                             s'.counts[c] == if r != UNKNOWN && c == r as int then Wrap64(s.counts[c] + 1) else s.counts[c]))
  {
  }

  /** Nothing but a slow search and new guardrails touches the degradation. */
  lemma DegradedAfter(s: State, call: Call)
    requires WellFormed(s) && Defined(s, call)
    ensures Next(s, call).degraded != s.degraded ==>
              || (call.SetGuardrails? && !Next(s, call).degraded)
              || (call.Classify? && call.payload != [] && call.elapsedUs > s.guardrails.timeoutUs
                  && Next(s, call).degraded == s.guardrails.degradationEnabled)
    ensures call.SetGuardrails? ==> !Next(s, call).degraded && Next(s, call).guardrails == call.guardrails
    ensures !call.SetGuardrails? ==> Next(s, call).guardrails == s.guardrails
  {
  }

  /** What the two edits do to the list: with no entry of the id an update appends and a removal does
      nothing; otherwise both act on the first such entry, in its place. Neither touches anything else. */
  lemma EditsChangeOneEntry(s: State, sig: Signature, before: seq<Signature>, after: seq<Signature>, previous: Signature)
    requires WellFormed(s) && previous.id == sig.id && forall x <- before :: x.id != sig.id
    ensures s.signatures == before + [previous] + after ==>
              && Next(s, Update(sig)) == s.(signatures := before + [sig] + after)
              && Next(s, Remove(sig.id)) == s.(signatures := before + after)
    ensures s.signatures == before ==>
              && Next(s, Update(sig)) == s.(signatures := before + [sig])
              && Next(s, Remove(sig.id)) == s
  {
    EditsActOnFirst(before, previous, after, sig);
  }

  /** A load adds to the list a signature for each record, with its fields and priority 0. */
  lemma LoadAddsRecords(s: State, records: seq<Record>, order: seq<Signature>, sig: Signature)
    requires WellFormed(s)
    ensures sig in Next(s, Load(records, order)).signatures <==>
            || sig in s.signatures
            || exists r <- records ::
                 && sig.id == r.id && sig.classification == r.classification && sig.pattern == r.pattern
                 && sig.offset == r.offset && sig.depth == r.depth && sig.stateless && sig.priority == 0
  {
    var added := FromRecords(records);
    SameMembers(SortedAs(s.signatures + added, order), s.signatures + added);
    if sig in added {
      var i :| 0 <= i < |added| && added[i] == sig;
      assert records[i] in records;
    }
    if r :| r in records && sig == FromRecord(r) {
      var i :| 0 <= i < |records| && records[i] == r;
      assert added[i] == sig;
    }
  }

  // ---------------------------------------------------------------- counting within the cells

  /** Every class of the list has a counter cell. */
  predicate Countable(sigs: seq<Signature>) {
    forall sig <- sigs :: sig.classification as nat < CLASSES
  }

  /** A signature without a cell is the first match of the payload. */
  ghost predicate Miscounts(sigs: seq<Signature>, payload: Payload, i: nat) {
    IsFirst(sigs, payload, i) && sigs[i].classification as nat >= CLASSES
  }

  lemma MiscountsIff(sigs: seq<Signature>, payload: Payload)
    ensures FirstMatch(sigs, payload) as nat >= CLASSES <==> exists i: nat :: Miscounts(sigs, payload, i)
  {
    FirstMatchMeaning(sigs, payload);
    var i := FirstMatching(sigs, payload);
    if i < |sigs| && sigs[i].classification as nat >= CLASSES {
      assert Miscounts(sigs, payload, i);
    }
  }

  /** Classifying is defined for every payload, random number and elapsed time if and only if the
      sampling test is, and no signature without a cell is the first match of any payload. */
  lemma ClassifyDefinedIff(s: State)
    ensures (forall call: Call :: call.Classify? ==> Defined(s, call)) <==>
              && (s.degraded ==> s.guardrails.sampleRate > 0)
              && (forall payload: Payload, i: nat :: payload != [] ==> !Miscounts(s.signatures, payload, i))
  {
    if forall call: Call :: call.Classify? ==> Defined(s, call) {
      assert Defined(s, Classify([0], 0, 0));
      forall payload: Payload, i: nat | payload != []
        ensures !Miscounts(s.signatures, payload, i)
      {
        assert Defined(s, Classify(payload, 0, 0));
        assert Result(s, Classify(payload, 0, 0)) == FirstMatch(s.signatures, payload);
        MiscountsIff(s.signatures, payload);
      }
    }
    if (s.degraded ==> s.guardrails.sampleRate > 0)
       && forall payload: Payload, i: nat :: payload != [] ==> !Miscounts(s.signatures, payload, i) {
      forall call: Call | call.Classify?
        ensures Defined(s, call)
      {
        MiscountsIff(s.signatures, call.payload);
      }
    }
  }

  /** A signature without a cell that is listed first miscounts some payload if and only if it can
      match at all. */
  lemma FirstListedMiscountsIff(sigs: seq<Signature>)
    requires sigs != [] && sigs[0].classification as nat >= CLASSES
    ensures CanMatch(sigs[0]) <==> exists payload: Payload :: Miscounts(sigs, payload, 0)
  {
    CanMatchIff(sigs[0]);
    if CanMatch(sigs[0]) {
      var payload :| Matches(sigs[0], payload);
      assert Miscounts(sigs, payload, 0);
    }
  }

  /** A list in which no signature without a cell can match never miscounts. */
  lemma UnmatchableHarmless(sigs: seq<Signature>, payload: Payload)
    requires forall sig <- sigs :: sig.classification as nat >= CLASSES ==> !CanMatch(sig)
    ensures FirstMatch(sigs, payload) as nat < CLASSES
  {
    MiscountsIff(sigs, payload);
    forall i: nat
      ensures !Miscounts(sigs, payload, i)
    {
      if Miscounts(sigs, payload, i) {
        assert sigs[i] in sigs;
        CanMatchIff(sigs[i]);
      }
    }
  }

  /** A list whose classes all have a cell never miscounts. */
  lemma CountableDefined(s: State, call: Call)
    requires Countable(s.signatures) && Samplable(s, call)
    ensures Defined(s, call)
  {
    if call.Classify? {
      var i := FirstMatching(s.signatures, call.payload);
      assert i < |s.signatures| ==> s.signatures[i] in s.signatures;
    }
  }

  /** The loader reads the class as one character. One record whose class field is the digit 1, and
      a payload it matches, and the counting leaves its array, whatever the guardrails. */
  lemma LoadedDigitMiscounts(g: Guardrails) returns (calls: seq<Call>)
    ensures |calls| == 2 && calls[0].Load? && calls[1].Classify? && WellFormed(Start(g))
    ensures |calls[0].records| == 1 && calls[0].records[0].classification as int == '1' as int
    ensures Defined(Start(g), calls[0]) && !Defined(Next(Start(g), calls[0]), calls[1])
    ensures !Runs(Start(g), calls)
  {
    var r := Record(7, 49, [65], 0, 1);
    calls := [Load([r], [FromRecord(r)]), Classify([65], 0, 0)];
    assert '1' as int == 49;
    var s0 := Start(g);
    var s1 := Next(s0, calls[0]);
    assert s0.signatures + FromRecords([r]) == [FromRecord(r)];
    assert s1.signatures == [FromRecord(r)];
    assert OccursAt(s1.signatures[0], [65], 0);
    assert Miscounts(s1.signatures, [65], 0);
    MiscountsIff(s1.signatures, [65]);
    assert Result(s1, calls[1]) == FirstMatch(s1.signatures, [65]);
    assert calls[1..] == [calls[1]];
    assert !Runs(s1, [calls[1]]);
  }

  lemma OnlyCall(s: State, a: Call)
    requires WellFormed(s) && Defined(s, a)
    ensures Runs(s, [a]) && Final(s, [a]) == Next(s, a)
  {
    assert [a][1..] == [];
    assert Runs(Next(s, a), []) && Final(Next(s, a), []) == Next(s, a);
  }

  lemma TwoCalls(s: State, a: Call, b: Call)
    requires WellFormed(s) && Defined(s, a) && Defined(Next(s, a), b)
    ensures Runs(s, [a, b]) && Final(s, [a, b]) == Next(Next(s, a), b)
  {
    assert [a, b][1..] == [b];
    OnlyCall(Next(s, a), b);
    FirstCall(s, [a, b], UNKNOWN);
  }

  lemma LoadTwo(g: Guardrails, r1: Record, r2: Record) returns (load: Call)
    ensures load.Load? && WellFormed(Start(g)) && Defined(Start(g), load)
    ensures Next(Start(g), load).signatures == [FromRecord(r1), FromRecord(r2)]
  {
    load := Load([r1, r2], [FromRecord(r1), FromRecord(r2)]);
    assert Start(g).signatures + FromRecords([r1, r2]) == [FromRecord(r1), FromRecord(r2)];
  }

  /** Two records of one id, and a removal leaves the id in the list. */
  lemma DuplicateSurvivesRemoval(g: Guardrails) returns (calls: seq<Call>)
    ensures WellFormed(Start(g)) && Runs(Start(g), calls)
    ensures |calls| == 2 && calls[0].Load? && calls[1].Remove?
    ensures var sigs := Final(Start(g), calls).signatures; Find(sigs, calls[1].id) < |sigs|
  {
    var r := Record(7, 1, [65], 0, 1);
    var load := LoadTwo(g, r, r);
    calls := [load, Remove(7)];
    TwoCalls(Start(g), load, Remove(7));
    RemoveLeavesTwin(FromRecord(r));
  }

  /** Two loaded records, and an update that gives the second a priority: the list is unsorted. */
  lemma UpdateUnsorts(g: Guardrails) returns (calls: seq<Call>)
    ensures WellFormed(Start(g)) && Runs(Start(g), calls)
    ensures |calls| == 2 && calls[0].Load? && calls[1].Update?
    ensures !ByPriority(Final(Start(g), calls).signatures)
  {
    var r1, r2 := Record(7, 1, [65], 0, 1), Record(8, 2, [66], 0, 1);
    var load := LoadTwo(g, r1, r2);
    var update := Update(FromRecord(r2).(priority := 9));
    calls := [load, update];
    TwoCalls(Start(g), load, update);
    UpdateUnsortsPair(FromRecord(r1), FromRecord(r2), update.sig);
  }

  /** What a call brings into the list has a cell. */
  predicate BringsCountable(call: Call) {
    && (call.Update? ==> call.sig.classification as nat < CLASSES)
    && (call.Load? ==> Countable(FromRecords(call.records)))
  }

  predicate AllCountable(calls: seq<Call>) {
    forall call <- calls :: BringsCountable(call)
  }

  lemma CountableKept(s: State, call: Call)
    requires WellFormed(s) && Defined(s, call) && Countable(s.signatures) && BringsCountable(call)
    ensures Countable(Next(s, call).signatures)
  {
    if call.Load? {
      var all := s.signatures + FromRecords(call.records);
      SameMembers(SortedAs(all, call.order), all);
    }
  }

  // ---------------------------------------------------------------- sampling without division by zero

  /** Guardrails that can degrade sample at a positive rate. */
  predicate Installable(g: Guardrails) {
    g.degradationEnabled ==> g.sampleRate > 0
  }

  /** No call is slow enough to exceed the largest timeout. */
  const NEVER: uint32 := 0xFFFF_FFFF

  /** The guardrails cannot lead to a division by zero. */
  predicate Safe(g: Guardrails) {
    Installable(g) || g.timeoutUs == NEVER
  }

  /** Degraded only by guardrails that can degrade and whose timeout can be exceeded. */
  predicate SoundlyDegraded(s: State) {
    s.degraded ==> s.guardrails.degradationEnabled && s.guardrails.timeoutUs != NEVER
  }

  /** Histories that install only safe guardrails, on lists with cells, are defined. */
  lemma {:induction false} SafeMeansDefined(s: State, calls: seq<Call>)
    requires WellFormed(s) && Countable(s.signatures) && SoundlyDegraded(s) && Safe(s.guardrails)
    requires AllCountable(calls) && forall call <- calls :: call.SetGuardrails? ==> Safe(call.guardrails)
    ensures Runs(s, calls)
    decreases |calls|
  {
    if calls == [] {
    } else {
      assert calls[0] in calls;
      assert forall call <- calls[1..] :: call in calls;
      CountableDefined(s, calls[0]);
      CountableKept(s, calls[0]);
      SafeMeansDefined(Next(s, calls[0]), calls[1..]);
    }
  }

  predicate AllInstallable(calls: seq<Call>) {
    forall call <- calls :: call.SetGuardrails? ==> Installable(call.guardrails)
  }

  /** With installable guardrails alone, from any state that is not degraded against them. */
  lemma {:induction false} InstallableMeansDefined(s: State, calls: seq<Call>)
    requires WellFormed(s) && Countable(s.signatures) && DegradedOnlyIfEnabled(s) && Installable(s.guardrails)
    requires AllInstallable(calls) && AllCountable(calls)
    ensures Runs(s, calls)
    decreases |calls|
  {
    if calls == [] {
    } else {
      assert calls[0] in calls;
      assert forall call <- calls[1..] :: call in calls;
      CountableDefined(s, calls[0]);
      CountableKept(s, calls[0]);
      InstallableMeansDefined(Next(s, calls[0]), calls[1..]);
    }
  }

  predicate NothingInstalled(calls: seq<Call>) {
    forall call <- calls :: !call.SetGuardrails?
  }

  /** The largest timeout is never exceeded, so a classifier that keeps it never degrades. */
  lemma {:induction false} NeverDegrades(s: State, calls: seq<Call>)
    requires WellFormed(s) && Runs(s, calls) && !s.degraded && s.guardrails.timeoutUs == NEVER && NothingInstalled(calls)
    ensures !Final(s, calls).degraded
    decreases |calls|
  {
    if calls == [] {
    } else {
      assert calls[0] in calls;
      assert forall call <- calls[1..] :: call in calls;
      NeverDegrades(Next(s, calls[0]), calls[1..]);
    }
  }

  /** Two slow calls in a row divide by a zero sample rate. */
  lemma SlowCallThenDivision(s: State) returns (calls: seq<Call>)
    requires WellFormed(s) && !Safe(s.guardrails) && !s.degraded
    ensures AllCountable(calls) && NothingInstalled(calls) && !Runs(s, calls)
  {
    var late := Classify([0], 0, s.guardrails.timeoutUs + 1);
    calls := [late, late];
    assert calls[1..] == [late];
    assert Result(s, late) == UNKNOWN;
    var s1 := Next(s, late);
    assert s1.degraded && !Defined(s1, late);
    assert !Runs(s1, [late]);
  }

  /** The history installs only guardrails of the set. */
  predicate InstallsFrom(calls: seq<Call>, gs: set<Guardrails>) {
    forall call <- calls :: call.SetGuardrails? ==> call.guardrails in gs
  }

  /** Started with one of a set of guardrails, all histories that install only guardrails of the set
      are defined if and only if every one of the set is installable or cannot be exceeded. */
  lemma DefinedIffInstallable(g: Guardrails, gs: set<Guardrails>)
    requires g in gs
    ensures WellFormed(Start(g))
    ensures (forall h <- gs :: Installable(h) || h.timeoutUs == NEVER) <==>
            forall calls: seq<Call> :: AllCountable(calls) && InstallsFrom(calls, gs) ==> Runs(Start(g), calls)
  {
    if forall h <- gs :: Safe(h) {
      forall calls: seq<Call> | AllCountable(calls) && InstallsFrom(calls, gs)
        ensures Runs(Start(g), calls)
      {
        SafeMeansDefined(Start(g), calls);
      }
    } else {
      var h :| h in gs && !Safe(h);
      var calls := InstallThenDivide(g, h);
    }
  }

  lemma InstallThenDivide(g: Guardrails, h: Guardrails) returns (calls: seq<Call>)
    requires !Safe(h)
    ensures WellFormed(Start(g)) && AllCountable(calls) && InstallsFrom(calls, {h}) && !Runs(Start(g), calls)
  {
    var install := Call.SetGuardrails(h);
    var rest := SlowCallThenDivision(Next(Start(g), install));
    calls := [install] + rest;
    assert calls[1..] == rest;
  }
}
