/** The device-twin interval updater of Device/utility.cpp: the module-level
    `interval`, its getter `getInterval` and the update handler `parseTwinMessage`. */
module Twin {
  import opened Config
  import opened Json

  /** DEVICE_TWIN_UPDATE_STATE: a complete twin document, or only the changed top-level fields. */
  datatype UpdateState = Complete | Partial

  /** One update as the handler receives it, with its text already run through the parser
      (None stands for a parse failure). */
  datatype Update = Update(state: UpdateState, doc: Option<Json>)

  /** C's conversion `(int)val` of a double: the fractional part is dropped, toward zero. */
  function TruncateTowardZero(x: real): (r: int)
    ensures 0.0 <= x ==> 0 <= r && r as real <= x < r as real + 1.0
    ensures x < 0.0 ==> r <= 0 && r as real - 1.0 < x <= r as real
  {
    if x >= 0.0 then x.Floor else -((-x).Floor)
  }

  /** The value `val` that the handler compares with the floor: `desired.interval` for a
      complete update, the root's `interval` for a partial one; 0 where it is missing. */
  function Candidate(state: UpdateState, root: Members): (val: real)
    ensures state == Complete && GetObject(root, "desired").None? ==> val == 0.0
    ensures state == Complete && val != 0.0 ==>
              exists desired :: FindMember(root, "desired") == Some(Object(desired)) &&
                                FindMember(desired, "interval") == Some(Number(val))
    ensures state == Partial && val != 0.0 ==> FindMember(root, "interval") == Some(Number(val))
    ensures state == Complete && GetObject(root, "desired").Some? ==>
              val == GetNumber(GetObject(root, "desired").value, "interval")
    ensures state == Partial && FindMember(root, "interval").Some? &&
            FindMember(root, "interval").value.Number? ==>
              val == FindMember(root, "interval").value.num
  {
    if state == Complete then
      match GetObject(root, "desired")
      case Some(desired) => GetNumber(desired, "interval")
      case None => 0.0
    else
      GetNumber(root, "interval")
  }

  /** The interval after one update is handled, starting from `current`. */
  function NextInterval(current: int, state: UpdateState, doc: Option<Json>): (next: int)
    ensures next != current ==> next >= INTERVAL_UPDATE_FLOOR
    ensures (doc.None? || !doc.value.Object?) ==> next == current
  {
    match doc
    case Some(Object(root)) =>
      var val := Candidate(state, root);
      if val > INTERVAL_UPDATE_FLOOR as real then TruncateTowardZero(val) else current
    case _ => current
  }

  /** The interval after replaying `updates`, in order, from the initial value. */
  function IntervalAfter(updates: seq<Update>): int
  {
    if updates == [] then INTERVAL
    else
      var last := updates[|updates| - 1];
      NextInterval(IntervalAfter(updates[..|updates| - 1]), last.state, last.doc)
  }

  /** Whether handling `u` writes the interval at all. */
  predicate Accepted(u: Update)
  {
    u.doc.Some? && u.doc.value.Object? &&
    Candidate(u.state, u.doc.value.members) > INTERVAL_UPDATE_FLOOR as real
  }

  /** Every reachable interval is at least 500. */
  lemma {:induction false} ReachableIntervalAtLeastFloor(updates: seq<Update>)
    ensures IntervalAfter(updates) >= INTERVAL_UPDATE_FLOOR
  {
    if updates != [] {
      ReachableIntervalAtLeastFloor(updates[..|updates| - 1]);
    }
  }

  /** Until some update is accepted, the interval keeps its initial value. */
  lemma {:induction false} NoAcceptedUpdateKeepsDefault(updates: seq<Update>)
    requires forall i :: 0 <= i < |updates| ==> !Accepted(updates[i])
    ensures IntervalAfter(updates) == INTERVAL
  {
    if updates != [] {
      var prefix := updates[..|updates| - 1];
      assert forall i :: 0 <= i < |prefix| ==> prefix[i] == updates[i];
      NoAcceptedUpdateKeepsDefault(prefix);
      assert !Accepted(updates[|updates| - 1]);
    }
  }

  /** The interval is always the initial value or the truncation of some accepted
      update's candidate: no other value is ever written. */
  lemma {:induction false} IntervalComesFromAcceptedUpdate(updates: seq<Update>)
    ensures IntervalAfter(updates) == INTERVAL ||
            exists i :: 0 <= i < |updates| && Accepted(updates[i]) &&
                        IntervalAfter(updates) == TruncateTowardZero(Candidate(updates[i].state, updates[i].doc.value.members))
  {
    if updates != [] {
      var n := |updates| - 1;
      var prefix := updates[..n];
      IntervalComesFromAcceptedUpdate(prefix);
      if !Accepted(updates[n]) {
        if IntervalAfter(prefix) != INTERVAL {
          var i :| 0 <= i < |prefix| && Accepted(prefix[i]) &&
                   IntervalAfter(prefix) == TruncateTowardZero(Candidate(prefix[i].state, prefix[i].doc.value.members));
          assert prefix[i] == updates[i];
        }
      }
    }
  }

  /** A document that failed to parse, or whose root is not an object, changes nothing,
      whatever the kind of update. */
  lemma MalformedUpdateChangesNothing(current: int, state: UpdateState, doc: Option<Json>)
    requires doc.None? || !doc.value.Object?
    ensures NextInterval(current, state, doc) == current
    ensures !Accepted(Update(state, doc))
  {
  }

  /** A complete update takes `desired.interval` when it is a number above 500. */
  lemma CompleteUpdateReadsDesired(current: int, root: Members, desired: Members, v: real)
    requires FindMember(root, "desired") == Some(Object(desired))
    requires FindMember(desired, "interval") == Some(Number(v))
    requires v > INTERVAL_UPDATE_FLOOR as real
    ensures NextInterval(current, Complete, Some(Object(root))) == TruncateTowardZero(v)
  {
  }

  /** A complete update whose `desired` is missing or not an object changes nothing. */
  lemma CompleteUpdateWithoutDesiredObject(current: int, root: Members)
    requires FindMember(root, "desired").None? || !FindMember(root, "desired").value.Object?
    ensures NextInterval(current, Complete, Some(Object(root))) == current
  {
  }

  /** A root-level `interval` never influences a complete update: setting it to any
      number leaves the outcome as it was. */
  lemma CompleteUpdateIgnoresRootInterval(current: int, root: Members, v: real)
    ensures NextInterval(current, Complete, Some(Object(SetNumber(root, "interval", v)))) ==
            NextInterval(current, Complete, Some(Object(root)))
  {
    SetNumberFrame(root, "interval", v, "desired");
  }

  /** A partial update takes the root's `interval` when it is a number above 500. */
  lemma PartialUpdateReadsRoot(current: int, root: Members, v: real)
    requires FindMember(root, "interval") == Some(Number(v))
    requires v > INTERVAL_UPDATE_FLOOR as real
    ensures NextInterval(current, Partial, Some(Object(root))) == TruncateTowardZero(v)
  {
  }

  /** An update whose candidate is at most 500 (0 and negatives included, and so a
      missing or non-numeric field) changes nothing. */
  lemma SmallCandidateChangesNothing(current: int, state: UpdateState, root: Members)
    requires Candidate(state, root) <= INTERVAL_UPDATE_FLOOR as real
    ensures NextInterval(current, state, Some(Object(root))) == current
  {
  }

  /** A partial update whose root `interval` is missing or not a number changes nothing. */
  lemma PartialUpdateWithoutNumber(current: int, root: Members)
    requires !FindMember(root, "interval").Some? || !FindMember(root, "interval").value.Number?
    ensures NextInterval(current, Partial, Some(Object(root))) == current
  {
  }

  /** Worked updates: a flat `{"interval": 1000}`, a nested `{"desired": {"interval": 700}}`,
      and a complete update that ignores a root-level interval. */
  lemma UpdateExamples()
    ensures NextInterval(INTERVAL, Partial, Some(Object([("interval", Number(1000.0))]))) == 1000
    ensures NextInterval(INTERVAL, Complete, Some(Object([("desired", Object([("interval", Number(700.0))]))]))) == 700
    ensures NextInterval(INTERVAL, Complete, Some(Object([("interval", Number(900.0))]))) == INTERVAL
    ensures NextInterval(INTERVAL, Partial, Some(Object([("interval", Number(500.0))]))) == INTERVAL
  {
  }

  /** A candidate just above 500 is accepted and truncated down to exactly 500, so the
      floor 500 itself is reachable: the invariant is `interval >= 500`, not `> 500`. */
  lemma FractionalCandidateReachesFloor()
    ensures NextInterval(INTERVAL, Partial, Some(Object([("interval", Number(500.5))]))) == INTERVAL_UPDATE_FLOOR
  {
  }

  /** The module-level state of the updater. `history` records, for the proof only,
      every update handled so far. */
  class TwinState {
    var interval: int
    ghost var history: seq<Update>

    /** The interval is the replay of every update handled so far. */
    ghost predicate Valid()
      reads this
    {
      interval == IntervalAfter(history)
    }

    /** `static int interval = INTERVAL;` */
    constructor ()
      ensures Valid() && history == []
      ensures interval == INTERVAL
    {
      interval := INTERVAL;
      history := [];
    }

    /** getInterval: the current interval, never below 500. */
    method GetInterval() returns (r: int)
      requires Valid()
      ensures r == interval
      ensures r >= INTERVAL_UPDATE_FLOOR
    {
      ReachableIntervalAtLeastFloor(history);
      r := interval;
    }

    /** parseTwinMessage: parse `message`; give up unless the root is an object; pick the
        candidate by update kind; store its truncation only when it is above 500. */
    method ParseTwinMessage(updateState: UpdateState, message: string, parse: string -> Option<Json>)
      requires Valid()
      modifies this
      ensures Valid()
      ensures history == old(history) + [Update(updateState, parse(message))]
      ensures interval == NextInterval(old(interval), updateState, parse(message))
      ensures interval == old(interval) || interval >= INTERVAL_UPDATE_FLOOR
    {
      var rootValue := parse(message);
      history := history + [Update(updateState, rootValue)];
      assert history[..|history| - 1] == old(history);
      if rootValue.None? || !rootValue.value.Object? {
        return;
      }
      var rootObject := rootValue.value.members;
      var val: real := 0.0;
      if updateState == Complete {
        var desiredObject := GetObject(rootObject, "desired");
        if desiredObject.Some? {
          val := GetNumber(desiredObject.value, "interval");
        }
      } else {
        val := GetNumber(rootObject, "interval");
      }
      if val > INTERVAL_UPDATE_FLOOR as real {
        interval := TruncateTowardZero(val);
      }
    }
  }
}
