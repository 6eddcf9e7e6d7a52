/** Optional values: a condition that may be absent, a sink URI that may be nil. */
module Wrappers {
  datatype Option<+T> = None | Some(value: T)
}

/**
  The living condition set and its manager: a fixed catalog of dependent
  condition types plus one aggregate ("happy") condition, and the operations
  that read and mark the conditions of one status record.

  The conditions of a record are a map from condition type to condition. A
  dependent that is absent from the map counts as neither True nor False, so it
  aggregates like Unknown. After every mark the aggregate is recomputed from
  the dependents by one rule: False if some dependent is False, otherwise
  Unknown if some dependent is not True, otherwise True. The aggregate copies
  the condition (reason and message) of the first dependent, in declared order,
  that decided its status.
*/
module Conditions {
  import opened Wrappers

  /** Tri-state status of one condition. */
  datatype Status = True | False | Unknown

  type ConditionType = string

  /** One observation: its status, a machine-readable reason and a human message. */
  datatype Condition = Condition(status: Status, reason: string, message: string)

  type ConditionMap = map<ConditionType, Condition>

  const ConditionReady: ConditionType := "Ready"

  const UnknownCondition := Condition(Unknown, "", "")
  const TrueCondition := Condition(True, "", "")

  /** A catalog: the aggregate condition type and its dependents in declared order. */
  datatype ConditionSet = ConditionSet(happy: ConditionType, dependents: seq<ConditionType>)

  /** The aggregate is never one of its own dependents. */
  predicate WellFormed(cs: ConditionSet) {
    cs.happy !in cs.dependents
  }

  /** A living condition set aggregates its dependents under "Ready". */
  function NewLivingConditionSet(dependents: seq<ConditionType>): ConditionSet {
    ConditionSet(ConditionReady, dependents)
  }

  function DependentSet(cs: ConditionSet): set<ConditionType> {
    set t | t in cs.dependents
  }

  function GetCondition(conds: ConditionMap, t: ConditionType): Option<Condition> {
    if t in conds then Some(conds[t]) else None
  }

  /** The condition of `t` as the aggregation sees it: an absent one is Unknown. */
  function ConditionOf(conds: ConditionMap, t: ConditionType): Condition {
    if t in conds then conds[t] else UnknownCondition
  }

  function StatusOf(conds: ConditionMap, t: ConditionType): Status {
    ConditionOf(conds, t).status
  }

  /** Reference definition of the aggregate status, by quantifiers over the dependents. */
  function AggregateStatus(cs: ConditionSet, conds: ConditionMap): Status {
    if forall i :: 0 <= i < |cs.dependents| ==> StatusOf(conds, cs.dependents[i]) == True then True
    else if exists i :: 0 <= i < |cs.dependents| && StatusOf(conds, cs.dependents[i]) == False then False
    else Unknown
  }

  /** The stored aggregate agrees with the current dependents. */
  predicate Consistent(cs: ConditionSet, conds: ConditionMap) {
    cs.happy in conds && conds[cs.happy].status == AggregateStatus(cs, conds)
  }

  /** `after` differs from `before` only by holding `c` for `t` and some aggregate for `happy`. */
  predicate OnlyMarked(cs: ConditionSet, before: ConditionMap, after: ConditionMap, t: ConditionType, c: Condition) {
    && after.Keys == before.Keys + {t, cs.happy}
    && after[t] == c
    && forall u :: u in before && u != t && u != cs.happy ==> after[u] == before[u]
  }

  /** Index of the first dependent at or after `from` whose status is `s`. */
  function FirstWithStatus(cs: ConditionSet, conds: ConditionMap, s: Status, from: nat): (k: Option<nat>)
    requires from <= |cs.dependents|
    ensures k.Some? ==> from <= k.value < |cs.dependents| && StatusOf(conds, cs.dependents[k.value]) == s
    ensures forall j :: from <= j < (if k.Some? then k.value else |cs.dependents|) ==>
              StatusOf(conds, cs.dependents[j]) != s
    decreases |cs.dependents| - from
  {
    if from == |cs.dependents| then None
    else if StatusOf(conds, cs.dependents[from]) == s then Some(from)
    else FirstWithStatus(cs, conds, s, from + 1)
  }

  /** The aggregate condition: the first False dependent, else the first Unknown one, else True. */
  function Aggregate(cs: ConditionSet, conds: ConditionMap): (c: Condition)
    ensures c.status == AggregateStatus(cs, conds)
    ensures c.status == True ==> c == TrueCondition
    ensures c.status != True ==>
              exists i :: 0 <= i < |cs.dependents| && c == ConditionOf(conds, cs.dependents[i])
  {
    match FirstWithStatus(cs, conds, False, 0)
    case Some(i) => ConditionOf(conds, cs.dependents[i])
    case None =>
      match FirstWithStatus(cs, conds, Unknown, 0)
      case Some(i) => ConditionOf(conds, cs.dependents[i])
      case None => TrueCondition
  }

  /** When some dependent is False, the aggregate is the first False one in declared order. */
  lemma AggregateCopiesFirstFalse(cs: ConditionSet, conds: ConditionMap, i: nat)
    requires i < |cs.dependents| && StatusOf(conds, cs.dependents[i]) == False
    requires forall j :: 0 <= j < i ==> StatusOf(conds, cs.dependents[j]) != False
    ensures Aggregate(cs, conds) == ConditionOf(conds, cs.dependents[i])
  {
  }

  /** When no dependent is False, the aggregate is the first Unknown one in declared order. */
  lemma AggregateCopiesFirstUnknown(cs: ConditionSet, conds: ConditionMap, i: nat)
    requires forall j :: 0 <= j < |cs.dependents| ==> StatusOf(conds, cs.dependents[j]) != False
    requires i < |cs.dependents| && StatusOf(conds, cs.dependents[i]) == Unknown
    requires forall j :: 0 <= j < i ==> StatusOf(conds, cs.dependents[j]) != Unknown
    ensures Aggregate(cs, conds) == ConditionOf(conds, cs.dependents[i])
  {
  }

  /** The aggregate status depends only on the dependents' statuses. */
  lemma AggregateStatusFrame(cs: ConditionSet, a: ConditionMap, b: ConditionMap)
    requires forall i :: 0 <= i < |cs.dependents| ==> StatusOf(a, cs.dependents[i]) == StatusOf(b, cs.dependents[i])
    ensures AggregateStatus(cs, a) == AggregateStatus(cs, b)
  {
  }

  /** Store the freshly computed aggregate. */
  function Recompute(cs: ConditionSet, conds: ConditionMap): (r: ConditionMap)
    requires WellFormed(cs)
    ensures r.Keys == conds.Keys + {cs.happy}
    ensures forall u :: u in conds && u != cs.happy ==> r[u] == conds[u]
    ensures Consistent(cs, r)
  {
    var r := conds[cs.happy := Aggregate(cs, conds)];
    AggregateStatusFrame(cs, conds, r);
    r
  }

  /** The aggregate is True. Read back, this is exactly "every dependent is True". */
  function IsHappy(cs: ConditionSet, conds: ConditionMap): (b: bool)
    ensures b ==> cs.happy in conds
    ensures Consistent(cs, conds) ==>
              (b <==> forall i :: 0 <= i < |cs.dependents| ==> StatusOf(conds, cs.dependents[i]) == True)
  {
    cs.happy in conds && conds[cs.happy].status == True
  }

  /** Mark `t` True and recompute the aggregate. */
  function MarkTrue(cs: ConditionSet, conds: ConditionMap, t: ConditionType): (r: ConditionMap)
    requires WellFormed(cs) && t in cs.dependents
    ensures OnlyMarked(cs, conds, r, t, TrueCondition)
    ensures Consistent(cs, r)
    ensures IsHappy(cs, r) <==>
              forall i :: 0 <= i < |cs.dependents| && cs.dependents[i] != t ==> StatusOf(conds, cs.dependents[i]) == True
  {
    var r := Recompute(cs, conds[t := TrueCondition]);
    assert forall i :: 0 <= i < |cs.dependents| ==>
      StatusOf(r, cs.dependents[i]) == if cs.dependents[i] == t then True else StatusOf(conds, cs.dependents[i]);
    r
  }

  /** Mark `t` False with a reason and message and recompute: the aggregate becomes False. */
  function MarkFalse(cs: ConditionSet, conds: ConditionMap, t: ConditionType, reason: string, message: string): (r: ConditionMap)
    requires WellFormed(cs) && t in cs.dependents
    ensures OnlyMarked(cs, conds, r, t, Condition(False, reason, message))
    ensures Consistent(cs, r)
    ensures r[cs.happy].status == False && !IsHappy(cs, r)
  {
    var r := Recompute(cs, conds[t := Condition(False, reason, message)]);
    assert StatusOf(r, t) == False;
    r
  }

  /**
    Mark `t` Unknown with a reason and message and recompute: the aggregate is
    never True afterwards, and it is False exactly when another dependent is False.
  */
  function MarkUnknown(cs: ConditionSet, conds: ConditionMap, t: ConditionType, reason: string, message: string): (r: ConditionMap)
    requires WellFormed(cs) && t in cs.dependents
    ensures OnlyMarked(cs, conds, r, t, Condition(Unknown, reason, message))
    ensures Consistent(cs, r)
    ensures r[cs.happy].status != True
    ensures r[cs.happy].status == False <==>
              exists i :: 0 <= i < |cs.dependents| && cs.dependents[i] != t && StatusOf(conds, cs.dependents[i]) == False
  {
    var r := Recompute(cs, conds[t := Condition(Unknown, reason, message)]);
    assert StatusOf(r, t) == Unknown;
    assert forall i :: 0 <= i < |cs.dependents| ==>
      StatusOf(r, cs.dependents[i]) == if cs.dependents[i] == t then Unknown else StatusOf(conds, cs.dependents[i]);
    r
  }

  /** Give the aggregate and every dependent that is not yet present the status Unknown. */
  function InitializeConditions(cs: ConditionSet, conds: ConditionMap): (r: ConditionMap)
    ensures r.Keys == conds.Keys + {cs.happy} + DependentSet(cs)
    ensures forall t :: t in conds ==> r[t] == conds[t]
    ensures forall t :: t in r && t !in conds ==> r[t] == UnknownCondition
  {
    map t | t in conds.Keys + {cs.happy} + DependentSet(cs) :: if t in conds then conds[t] else UnknownCondition
  }

  /** Initializing twice is the same as initializing once. */
  lemma InitializeIdempotent(cs: ConditionSet, conds: ConditionMap)
    ensures InitializeConditions(cs, InitializeConditions(cs, conds)) == InitializeConditions(cs, conds)
  {
  }

  /**
    Initializing a fresh record (none of the catalog's types present, at least
    one dependent) or a consistent one leaves a consistent record.
  */
  lemma InitializeConsistent(cs: ConditionSet, conds: ConditionMap)
    requires WellFormed(cs)
    requires Consistent(cs, conds) ||
             (|cs.dependents| > 0 && cs.happy !in conds && forall i :: 0 <= i < |cs.dependents| ==> cs.dependents[i] !in conds)
    ensures Consistent(cs, InitializeConditions(cs, conds))
  {
    var r := InitializeConditions(cs, conds);
    forall i | 0 <= i < |cs.dependents|
      ensures StatusOf(r, cs.dependents[i]) == StatusOf(conds, cs.dependents[i])
    {
      assert cs.dependents[i] in DependentSet(cs);
    }
    AggregateStatusFrame(cs, conds, r);
    if !Consistent(cs, conds) {
      assert StatusOf(conds, cs.dependents[0]) == Unknown;
    }
  }

  /** Mark each type of `ts` True, in the order given. */
  function MarkAllTrue(cs: ConditionSet, conds: ConditionMap, ts: seq<ConditionType>): (r: ConditionMap)
    requires WellFormed(cs) && forall i :: 0 <= i < |ts| ==> ts[i] in cs.dependents
    ensures |ts| > 0 ==> Consistent(cs, r)
    decreases |ts|
  {
    if ts == [] then conds else MarkAllTrue(cs, MarkTrue(cs, conds, ts[0]), ts[1..])
  }

  /** A dependent that is True, or that is marked True along the way, is True at the end. */
  lemma {:induction false} MarkAllTrueKeepsTrue(cs: ConditionSet, conds: ConditionMap, ts: seq<ConditionType>, d: ConditionType)
    requires WellFormed(cs) && forall i :: 0 <= i < |ts| ==> ts[i] in cs.dependents
    requires d in cs.dependents && (StatusOf(conds, d) == True || d in ts)
    ensures StatusOf(MarkAllTrue(cs, conds, ts), d) == True
    decreases |ts|
  {
    if ts != [] {
      var next := MarkTrue(cs, conds, ts[0]);
      assert StatusOf(next, d) == True || d in ts[1..];
      MarkAllTrueKeepsTrue(cs, next, ts[1..], d);
    }
  }

  /** Marking every dependent True, in any order and from any state, makes the record happy. */
  lemma MarkAllTrueHappy(cs: ConditionSet, conds: ConditionMap, ts: seq<ConditionType>)
    requires WellFormed(cs) && forall i :: 0 <= i < |ts| ==> ts[i] in cs.dependents
    requires |ts| > 0 && forall i :: 0 <= i < |cs.dependents| ==> cs.dependents[i] in ts
    ensures IsHappy(cs, MarkAllTrue(cs, conds, ts))
  {
    forall i | 0 <= i < |cs.dependents|
      ensures StatusOf(MarkAllTrue(cs, conds, ts), cs.dependents[i]) == True
    {
      MarkAllTrueKeepsTrue(cs, conds, ts, cs.dependents[i]);
    }
  }
}
