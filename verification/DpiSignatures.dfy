// The signature list of the DPI classifier: windowed substring search, priority order, live edits.

module DpiSignatures {

  newtype uint8 = x: int | 0 <= x < 0x100
  newtype uint16 = x: int | 0 <= x < 0x1_0000
  newtype uint32 = x: int | 0 <= x < 0x1_0000_0000
  newtype uint64 = x: int | 0 <= x < 0x1_0000_0000_0000_0000

  /** A std::string: its size fits a size_t. */
  type Pattern = p: seq<uint8> | |p| < 0x1_0000_0000_0000_0000 witness []

  /** A payload with its uint32_t length; empty stands for null or zero length. */
  type Payload = p: seq<uint8> | |p| < 0x1_0000_0000 witness []

  const UNKNOWN: uint8 := 0

  datatype Signature = Signature(
    id: uint16, classification: uint8, pattern: Pattern, offset: uint32, depth: uint32,
    stateless: bool, priority: uint32)

  // ---------------------------------------------------------------- matching

  /** The window ends after `depth` bytes or with the payload. */
  function WindowEnd(sig: Signature, payload: Payload): int {
    if sig.offset as int + sig.depth as int <= |payload| then sig.offset as int + sig.depth as int else |payload|
  }

  predicate OccursAt(sig: Signature, payload: Payload, k: int) {
    && sig.offset as int <= k && k + |sig.pattern| <= WindowEnd(sig, payload)
    && payload[k..k + |sig.pattern|] == sig.pattern
  }

  /** The pattern occurs wholly inside the signature's window of the payload. */
  ghost predicate Matches(sig: Signature, payload: Payload) {
    sig.offset as int < |payload| && exists k :: OccursAt(sig, payload, k)
  }

  /** A match, in terms of the bytes alone: the pattern stands in the payload, not before the offset
      and not beyond offset plus depth. */
  lemma MatchesMeaning(sig: Signature, payload: Payload)
    ensures Matches(sig, payload) <==>
              && sig.offset as int < |payload|
              && exists before: seq<uint8>, after: seq<uint8> ::
                   && payload == before + sig.pattern + after
                   && sig.offset as int <= |before| && |before| + |sig.pattern| <= sig.offset as int + sig.depth as int
  {
    if Matches(sig, payload) {
      var k :| OccursAt(sig, payload, k);
      assert payload == payload[..k] + sig.pattern + payload[k + |sig.pattern|..];
    }
    if before: seq<uint8>, after: seq<uint8> :|
      && payload == before + sig.pattern + after
      && sig.offset as int <= |before| && |before| + |sig.pattern| <= sig.offset as int + sig.depth as int {
      assert payload[|before|..|before| + |sig.pattern|] == sig.pattern;
      if sig.offset as int < |payload| {
        assert OccursAt(sig, payload, |before|);
      }
    }
  }

  /** The signature can match at all: its pattern fits its window, and a payload can be that long. */
  predicate CanMatch(sig: Signature) {
    && |sig.pattern| <= sig.depth as int
    && sig.offset as int + (if sig.pattern == [] then 1 else |sig.pattern|) < 0x1_0000_0000
  }

  /** That is exactly when it matches some payload. */
  lemma CanMatchIff(sig: Signature)
    ensures CanMatch(sig) <==> exists payload: Payload :: Matches(sig, payload)
  {
    if CanMatch(sig) {
      var payload := MatchedPayload(sig);
    }
  }

  lemma MatchedPayload(sig: Signature) returns (payload: Payload)
    requires CanMatch(sig)
    ensures payload != [] && Matches(sig, payload)
  {
    var before: seq<uint8> := seq(sig.offset as int, i => 0);
    payload := before + (if sig.pattern == [] then [0] else sig.pattern);
    var k := sig.offset as int;
    assert payload[k..k + |sig.pattern|] == sig.pattern;
    assert OccursAt(sig, payload, k);
  }

  /** The i-th signature is the first listed one that matches. */
  ghost predicate IsFirst(sigs: seq<Signature>, payload: Payload, i: nat) {
    && i < |sigs| && Matches(sigs[i], payload)
    && forall j | 0 <= j < i :: !Matches(sigs[j], payload)
  }

  /** The position of the first match, or the end. */
  ghost function FirstMatching(sigs: seq<Signature>, payload: Payload): (i: nat)
    ensures i <= |sigs|
    ensures i < |sigs| ==> IsFirst(sigs, payload, i)
    ensures i == |sigs| ==> forall j | 0 <= j < |sigs| :: !Matches(sigs[j], payload)
  {
    if sigs == [] then 0
    else if Matches(sigs[0], payload) then 0
    else
      var i := FirstMatching(sigs[1..], payload);
      assert forall j | 0 < j < |sigs| :: sigs[j] == sigs[1..][j - 1];
      i + 1
  }

  ghost function FirstMatch(sigs: seq<Signature>, payload: Payload): uint8 {
    var i := FirstMatching(sigs, payload);
    if i < |sigs| then sigs[i].classification else UNKNOWN
  }

  /** The result is the class of the first listed match, and UNKNOWN when there is none. */
  lemma FirstMatchMeaning(sigs: seq<Signature>, payload: Payload)
    ensures (exists i: nat :: IsFirst(sigs, payload, i)) <==> (exists sig <- sigs :: Matches(sig, payload))
    ensures forall i: nat :: IsFirst(sigs, payload, i) ==> FirstMatch(sigs, payload) == sigs[i].classification
    ensures (forall sig <- sigs :: !Matches(sig, payload)) ==> FirstMatch(sigs, payload) == UNKNOWN
  {
    var f := FirstMatching(sigs, payload);
    forall i: nat | IsFirst(sigs, payload, i)
      ensures i == f
    {
      assert Matches(sigs[i], payload);
    }
    if f < |sigs| {
      assert IsFirst(sigs, payload, f) && sigs[f] in sigs;
    }
  }

  /** memcmp on a stretch that must lie inside the payload. */
  predicate SameBytes(payload: Payload, at: nat, pattern: Pattern)
    requires at + |pattern| <= |payload|
  {
    payload[at..at + |pattern|] == pattern
  }

  /** The search of one signature, in the machine types of the source: that this verifies says no
      unsigned operation wraps and no comparison leaves the payload. */
  method SearchOne(sig: Signature, payload: Payload) returns (found: bool)
    ensures found <==> Matches(sig, payload)
  {
    var len := |payload| as uint32;
    if sig.offset >= len {
      return false;
    }
    var searchLen := if sig.depth < len - sig.offset then sig.depth else len - sig.offset;
    assert sig.offset as int + searchLen as int == WindowEnd(sig, payload);
    var size := |sig.pattern| as uint64;
    if searchLen as uint64 >= size {
      var i: uint32 := 0;
      while i as uint64 <= searchLen as uint64 - size
        invariant i as int <= searchLen as int - |sig.pattern| + 1
        invariant forall k | sig.offset as int <= k < sig.offset as int + i as int :: !OccursAt(sig, payload, k)
        decreases searchLen as int - i as int
      {
        if SameBytes(payload, sig.offset as nat + i as nat, sig.pattern) {
          assert OccursAt(sig, payload, sig.offset as int + i as int);
          return true;
        }
        assert |sig.pattern| > 0;
        i := i + 1;
      }
    }
    return false;
  }

  method MatchSignatures(sigs: seq<Signature>, payload: Payload) returns (r: uint8)
    ensures r == FirstMatch(sigs, payload)
  {
    var n := 0;
    while n < |sigs|
      invariant 0 <= n <= |sigs|
      invariant forall j | 0 <= j < n :: !Matches(sigs[j], payload)
    {
      var found := SearchOne(sigs[n], payload);
      if found {
        assert IsFirst(sigs, payload, n);
        return sigs[n].classification;
      }
      n := n + 1;
    }
    return UNKNOWN;
  }

  // ---------------------------------------------------------------- priority order

  predicate ByPriority(sigs: seq<Signature>) {
    forall i, j | 0 <= i < j < |sigs| :: sigs[i].priority >= sigs[j].priority
  }

  /** In a sorted list the match has the highest priority of all that match. */
  lemma MatchHasTopPriority(sigs: seq<Signature>, payload: Payload, i: nat)
    requires ByPriority(sigs) && IsFirst(sigs, payload, i)
    ensures forall sig <- sigs :: Matches(sig, payload) ==> sig.priority <= sigs[i].priority
  {
  }

  /** A signature that matches the payload, and that no matching one outranks. */
  ghost predicate TopMatch(sigs: seq<Signature>, payload: Payload, sig: Signature) {
    sig in sigs && Matches(sig, payload) && forall other <- sigs :: Matches(other, payload) ==> other.priority <= sig.priority
  }

  /** The matches of highest priority agree on the class. */
  ghost predicate TopMatchesAgree(sigs: seq<Signature>, payload: Payload) {
    forall a, b :: TopMatch(sigs, payload, a) && TopMatch(sigs, payload, b) ==> a.classification == b.classification
  }

  /** Two orders a sort may leave the same signatures in. */
  predicate SortedAlike(s1: seq<Signature>, s2: seq<Signature>) {
    ByPriority(s1) && ByPriority(s2) && multiset(s1) == multiset(s2)
  }

  /** Whatever order an unstable sort leaves equal priorities in, the result is the same when the
      matches of highest priority agree. */
  lemma SortOrderIrrelevant(s1: seq<Signature>, s2: seq<Signature>, payload: Payload)
    requires SortedAlike(s1, s2) && TopMatchesAgree(s1, payload)
    ensures FirstMatch(s1, payload) == FirstMatch(s2, payload)
  {
    SameMembers(s1, s2);
    var i, j := FirstMatching(s1, payload), FirstMatching(s2, payload);
    if i < |s1| {
      assert s1[i] in s1 && s1[i] in s2;
    }
    if j < |s2| {
      assert s2[j] in s2 && s2[j] in s1;
    }
    if i < |s1| && j < |s2| {
      MatchHasTopPriority(s1, payload, i);
      MatchHasTopPriority(s2, payload, j);
      assert TopMatch(s1, payload, s1[i]) && TopMatch(s1, payload, s2[j]);
    }
  }

  /** Exchanging the first match with a later one of the same priority. */
  lemma SwapChangesResult(s: seq<Signature>, payload: Payload, i: nat, j: nat) returns (t: seq<Signature>)
    requires ByPriority(s) && IsFirst(s, payload, i) && i < j < |s|
    requires Matches(s[j], payload) && s[j].priority == s[i].priority
    ensures SortedAlike(s, t) && FirstMatch(t, payload) == s[j].classification
  {
    t := s[i := s[j]][j := s[i]];
    assert multiset(t) == multiset(s);
    assert forall k | 0 <= k < |s| :: t[k].priority == s[k].priority;
    assert IsFirst(t, payload, i);
    FirstMatchMeaning(t, payload);
  }

  /** The result does not depend on the order the sort leaves if and only if the matches of highest
      priority agree on the class. */
  lemma OrderIrrelevantIff(s: seq<Signature>, payload: Payload)
    requires ByPriority(s)
    ensures (forall t: seq<Signature> :: SortedAlike(s, t) ==> FirstMatch(t, payload) == FirstMatch(s, payload)) <==>
            TopMatchesAgree(s, payload)
  {
    if TopMatchesAgree(s, payload) {
      forall t: seq<Signature> | SortedAlike(s, t)
        ensures FirstMatch(t, payload) == FirstMatch(s, payload)
      {
        SortOrderIrrelevant(s, t, payload);
      }
    } else {
      var a, b :| TopMatch(s, payload, a) && TopMatch(s, payload, b) && a.classification != b.classification;
      var t := DisagreeingOrder(s, payload, if a.classification == FirstMatch(s, payload) then b else a);
    }
  }

  lemma DisagreeingOrder(s: seq<Signature>, payload: Payload, sig: Signature) returns (t: seq<Signature>)
    requires ByPriority(s) && TopMatch(s, payload, sig) && sig.classification != FirstMatch(s, payload)
    ensures SortedAlike(s, t) && FirstMatch(t, payload) != FirstMatch(s, payload)
  {
    var i := FirstMatching(s, payload);
    var j :| 0 <= j < |s| && s[j] == sig;
    FirstMatchMeaning(s, payload);
    assert IsFirst(s, payload, i);
    MatchHasTopPriority(s, payload, i);
    assert s[i] in s;
    t := SwapChangesResult(s, payload, i, j);
  }

  /** In a list of one priority, as the loader makes it, all matches must agree. */
  lemma OnePriorityIff(s: seq<Signature>, payload: Payload)
    requires forall a <- s, b <- s :: a.priority == b.priority
    ensures ByPriority(s)
    ensures (forall t: seq<Signature> :: SortedAlike(s, t) ==> FirstMatch(t, payload) == FirstMatch(s, payload)) <==>
            (forall a <- s, b <- s :: Matches(a, payload) && Matches(b, payload) ==> a.classification == b.classification)
  {
    OrderIrrelevantIff(s, payload);
    forall sig <- s
      ensures TopMatch(s, payload, sig) <==> Matches(sig, payload)
    {
    }
  }

  /** An instance: two matching signatures can be listed either way if and only if they tie, with
      the same result if and only if their classes agree. */
  lemma TieDecidesResult(a: Signature, b: Signature, payload: Payload)
    requires Matches(a, payload) && Matches(b, payload)
    ensures ByPriority([a, b]) && ByPriority([b, a]) <==> a.priority == b.priority
    ensures multiset([a, b]) == multiset([b, a])
    ensures FirstMatch([a, b], payload) == FirstMatch([b, a], payload) <==> a.classification == b.classification
  {
  }

  lemma SameMembers<T>(s1: seq<T>, s2: seq<T>)
    requires multiset(s1) == multiset(s2)
    ensures forall x :: x in s1 <==> x in s2
  {
    forall x
      ensures x in s1 <==> x in s2
    {
      assert x in s1 <==> x in multiset(s1);
      assert x in s2 <==> x in multiset(s2);
    }
  }

  /** Where a signature goes: after all of higher priority. */
  function Rank(sig: Signature, sigs: seq<Signature>): (p: nat)
    requires ByPriority(sigs)
    ensures p <= |sigs|
    ensures forall j | 0 <= j < p :: sigs[j].priority >= sig.priority
    ensures forall j | p <= j < |sigs| :: sig.priority >= sigs[j].priority
  {
    if sigs == [] || sig.priority >= sigs[0].priority then 0
    else
      var p := Rank(sig, sigs[1..]);
      assert forall j | 0 < j < |sigs| :: sigs[j] == sigs[1..][j - 1];
      p + 1
  }

  function Insert(sig: Signature, sigs: seq<Signature>): (r: seq<Signature>)
    requires ByPriority(sigs)
    ensures ByPriority(r) && multiset(r) == multiset([sig]) + multiset(sigs)
  {
    var p := Rank(sig, sigs);
    InsertKeeps(sig, sigs, p);
    sigs[..p] + [sig] + sigs[p..]
  }

  lemma InsertKeeps(sig: Signature, sigs: seq<Signature>, p: nat)
    requires p <= |sigs|
    ensures multiset(sigs[..p] + [sig] + sigs[p..]) == multiset([sig]) + multiset(sigs)
  {
    assert sigs == sigs[..p] + sigs[p..];
  }

  function Sorted(sigs: seq<Signature>): (r: seq<Signature>)
    ensures ByPriority(r) && multiset(r) == multiset(sigs)
  {
    if sigs == [] then []
    else
      assert sigs == [sigs[0]] + sigs[1..];
      Insert(sigs[0], Sorted(sigs[1..]))
  }

  /** The library sort: callers learn that the result is a sorted permutation and nothing more. */
  method StdSort(sigs: seq<Signature>) returns (r: seq<Signature>)
    ensures ByPriority(r) && multiset(r) == multiset(sigs)
  {
    r := Sorted(sigs);
  }

  // ---------------------------------------------------------------- live edits

  /** find_if: the first signature with that id, or the end. */
  function Find(sigs: seq<Signature>, id: uint16): (i: nat)
    ensures i <= |sigs|
    ensures i < |sigs| ==> sigs[i].id == id
    ensures forall j | 0 <= j < i :: sigs[j].id != id
  {
    if sigs == [] || sigs[0].id == id then 0 else 1 + Find(sigs[1..], id)
  }

  function Updated(sigs: seq<Signature>, sig: Signature): seq<Signature> {
    var i := Find(sigs, sig.id);
    if i < |sigs| then sigs[i := sig] else sigs + [sig]
  }

  function RemovedId(sigs: seq<Signature>, id: uint16): seq<Signature> {
    var i := Find(sigs, id);
    if i < |sigs| then sigs[..i] + sigs[i + 1..] else sigs
  }

  function Occurrences(sigs: seq<Signature>, id: uint16): nat {
    if sigs == [] then 0 else (if sigs[0].id == id then 1 else 0) + Occurrences(sigs[1..], id)
  }

  lemma {:induction false} OccurrencesAdd(a: seq<Signature>, b: seq<Signature>, id: uint16)
    ensures Occurrences(a + b, id) == Occurrences(a, id) + Occurrences(b, id)
  {
    if a == [] {
      assert a + b == b;
    } else {
      OccurrencesAdd(a[1..], b, id);
      assert (a + b)[1..] == a[1..] + b;
    }
  }

  lemma {:induction false} OccurrencesZero(sigs: seq<Signature>, id: uint16)
    ensures Occurrences(sigs, id) == 0 <==> Find(sigs, id) == |sigs|
  {
    if sigs == [] {
    } else {
      OccurrencesZero(sigs[1..], id);
    }
  }

  /** What a lookup by id sees. */
  ghost predicate Holds(sigs: seq<Signature>, id: uint16, sig: Signature) {
    Find(sigs, id) < |sigs| && sigs[Find(sigs, id)] == sig
  }

  /** The position Find returns is determined by its contract. */
  lemma FindIs(sigs: seq<Signature>, id: uint16, i: nat)
    requires i <= |sigs| && (i < |sigs| ==> sigs[i].id == id)
    requires forall j | 0 <= j < i :: sigs[j].id != id
    ensures Find(sigs, id) == i
  {
    var f := Find(sigs, id);
  }

  /** After an update the id maps to the new signature, and every other id to what it did before. */
  lemma UpdateIsAMapUpdate(sigs: seq<Signature>, sig: Signature, other: uint16)
    ensures Holds(Updated(sigs, sig), sig.id, sig)
    ensures other != sig.id ==>
              forall x :: Holds(Updated(sigs, sig), other, x) <==> Holds(sigs, other, x)
  {
    var i := Find(sigs, sig.id);
    var s' := Updated(sigs, sig);
    FindIs(s', sig.id, i);
    if other != sig.id {
      var k := Find(sigs, other);
      FindIs(s', other, if k < |sigs| then k else |s'|);
    }
  }

  lemma OccurrencesCut(sigs: seq<Signature>, i: nat, x: uint16)
    requires i < |sigs|
    ensures Occurrences(sigs, x) == Occurrences(sigs[..i] + sigs[i + 1..], x) + (if sigs[i].id == x then 1 else 0)
  {
    assert sigs == sigs[..i] + ([sigs[i]] + sigs[i + 1..]);
    OccurrencesAdd(sigs[..i], [sigs[i]] + sigs[i + 1..], x);
    OccurrencesAdd([sigs[i]], sigs[i + 1..], x);
    OccurrencesAdd(sigs[..i], sigs[i + 1..], x);
    assert Occurrences([sigs[i]], x) == if sigs[i].id == x then 1 else 0;
  }

  /** Removing takes out exactly one entry with that id, if there is one, and no other id changes;
      the id is gone if and only if it was listed at most once. */
  lemma RemoveTakesOne(sigs: seq<Signature>, id: uint16, other: uint16)
    ensures Occurrences(RemovedId(sigs, id), id) == if Occurrences(sigs, id) == 0 then 0 else Occurrences(sigs, id) - 1
    ensures other != id ==> Occurrences(RemovedId(sigs, id), other) == Occurrences(sigs, other)
    ensures Find(RemovedId(sigs, id), id) == |RemovedId(sigs, id)| <==> Occurrences(sigs, id) <= 1
  {
    var i := Find(sigs, id);
    OccurrencesZero(sigs, id);
    if i < |sigs| {
      OccurrencesCut(sigs, i, id);
      OccurrencesCut(sigs, i, other);
    }
    OccurrencesZero(RemovedId(sigs, id), id);
  }

  /** Where the edits act: on the first entry of the id, in place; an update of a new id appends, and a
      removal of one does nothing. */
  lemma EditsActOnFirst(before: seq<Signature>, previous: Signature, after: seq<Signature>, sig: Signature)
    requires previous.id == sig.id && forall s <- before :: s.id != sig.id
    ensures Updated(before + [previous] + after, sig) == before + [sig] + after
    ensures RemovedId(before + [previous] + after, sig.id) == before + after
    ensures Updated(before, sig) == before + [sig]
    ensures RemovedId(before, sig.id) == before
  {
    FindIs(before + [previous] + after, sig.id, |before|);
    FindIs(before, sig.id, |before|);
  }

  /** Removing what an update has just added restores the list. */
  lemma RemoveUndoesAdd(sigs: seq<Signature>, sig: Signature)
    requires Occurrences(sigs, sig.id) == 0
    ensures RemovedId(Updated(sigs, sig), sig.id) == sigs
  {
    OccurrencesZero(sigs, sig.id);
    FindIs(sigs + [sig], sig.id, |sigs|);
  }

  /** Removal keeps priority order. */
  lemma RemoveKeepsOrder(sigs: seq<Signature>, id: uint16)
    requires ByPriority(sigs)
    ensures ByPriority(RemovedId(sigs, id))
  {
  }

  /** The update does not sort again (docs/dpi.md says it does): a sorted list stays sorted
      if and only if the new priority fits between its neighbours. */
  lemma UpdateKeepsOrderIff(sigs: seq<Signature>, sig: Signature)
    requires ByPriority(sigs)
    ensures var i := Find(sigs, sig.id);
            ByPriority(Updated(sigs, sig)) <==>
              && (i > 0 ==> sigs[i - 1].priority >= sig.priority)
              && (i + 1 < |sigs| ==> sig.priority >= sigs[i + 1].priority)
  {
    var i := Find(sigs, sig.id);
    var s' := Updated(sigs, sig);
    if ByPriority(s') {
      if i > 0 { assert s'[i - 1].priority >= s'[i].priority; }
      if i + 1 < |sigs| { assert s'[i].priority >= s'[i + 1].priority; }
    }
    if (i > 0 ==> sigs[i - 1].priority >= sig.priority) && (i + 1 < |sigs| ==> sig.priority >= sigs[i + 1].priority) {
      forall a, b | 0 <= a < b < |s'|
        ensures s'[a].priority >= s'[b].priority
      {
        FitsBetween(sigs, sig, i, a, b);
      }
    }
  }

  /** An update that gives the later of two signatures the higher priority unsorts them. */
  lemma UpdateUnsortsPair(a: Signature, b: Signature, c: Signature)
    requires a.id != b.id == c.id && c.priority > a.priority
    ensures Updated([a, b], c) == [a, c] && !ByPriority(Updated([a, b], c))
  {
    FindIs([a, b], c.id, 1);
    assert [a, c][0].priority < [a, c][1].priority;
  }

  /** A removal from two entries of one id leaves the other. */
  lemma RemoveLeavesTwin(s: Signature)
    ensures RemovedId([s, s], s.id) == [s] && Find(RemovedId([s, s], s.id), s.id) == 0
  {
    FindIs([s, s], s.id, 0);
    FindIs([s], s.id, 0);
  }

  lemma FitsBetween(sigs: seq<Signature>, sig: Signature, i: nat, a: nat, b: nat)
    requires ByPriority(sigs) && i <= |sigs|
    requires i > 0 ==> sigs[i - 1].priority >= sig.priority
    requires i + 1 < |sigs| ==> sig.priority >= sigs[i + 1].priority
    requires a < b < if i < |sigs| then |sigs| else |sigs| + 1
    ensures var s' := if i < |sigs| then sigs[i := sig] else sigs + [sig];
            s'[a].priority >= s'[b].priority
  {
    if b == i && a < i - 1 {
      assert sigs[a].priority >= sigs[i - 1].priority;
    } else if a == i && i + 1 < b {
      assert sigs[i + 1].priority >= sigs[b].priority;
    }
  }
}
