/**
 * The integer- and string-valued decisions of the economy helpers: the laboratory
 * comparator, the greedy summation of laboratory levels and its per-requirement cache, the
 * requirement check of a unit, the rule that turns "allowed" into "no resources", and the
 * scan of a planet's build queue.
 */
module EcoBuildData {
  import opened Wrappers
  import opened PhpValues
  import opened PhpStrings

  // ---------------------------------------------------------------------------------------
  // Laboratories

  /** An active laboratory: its STRUC_LABORATORY level and its `laboratory_effective_level`. */
  datatype Lab = Lab(level: int, effective: int)

  /** `eco_lab_sort_effectivness`: -1 when `a` is more effective, 1 when less, 0 on a tie. */
  function LabCompare(a: Lab, b: Lab): (r: int)
    ensures -1 <= r <= 1
  {
    if a.effective > b.effective then -1 else if a.effective < b.effective then 1 else 0
  }

  /** The comparator is antisymmetric. */
  lemma LabCompareAntisymmetric(a: Lab, b: Lab)
    ensures LabCompare(a, b) == -LabCompare(b, a)
  {
  }

  /** The comparator is transitive, so `uasort` with it is a consistent ordering. */
  lemma LabCompareTransitive(a: Lab, b: Lab, c: Lab)
    requires LabCompare(a, b) <= 0 && LabCompare(b, c) <= 0
    ensures LabCompare(a, c) <= 0
  {
  }

  /** A list in the order `uasort($labs, 'eco_lab_sort_effectivness')` leaves it in. */
  predicate SortedByEffectiveness(labs: seq<Lab>)
  {
    forall i, j :: 0 <= i < j < |labs| ==> LabCompare(labs[i], labs[j]) <= 0
  }

  /** Sorted by the comparator means: effective levels in descending order. */
  lemma SortedIsDescending(labs: seq<Lab>)
    ensures SortedByEffectiveness(labs) <==>
            forall i, j :: 0 <= i < j < |labs| ==> labs[i].effective >= labs[j].effective
  {
  }

  /** Laboratory `lab` counts for a research that needs laboratory level `require`. */
  predicate Qualifies(lab: Lab, require: int)
  {
    lab.level >= require
  }

  /** The qualifying laboratories, in list order. */
  function Qualifying(labs: seq<Lab>, require: int): seq<Lab>
  {
    if labs == [] then []
    else if Qualifies(labs[0], require) then [labs[0]] + Qualifying(labs[1..], require)
    else Qualifying(labs[1..], require)
  }

  function SumEffective(labs: seq<Lab>): int
  {
    if labs == [] then 0 else labs[0].effective + SumEffective(labs[1..])
  }

  /**
   * The loop of `eco_get_lab_max_effective_level`: walk the laboratories in list order,
   * stop once `budget` of them have been counted, and add the effective level of each one
   * that qualifies.
   */
  function GreedySum(labs: seq<Lab>, budget: int, require: int): (r: int)
    ensures budget <= 0 || Qualifying(labs, require) == [] ==> r == 0
    ensures budget >= |Qualifying(labs, require)| ==> r == SumEffective(Qualifying(labs, require))
  {
    if labs == [] || budget <= 0 then 0
    else if Qualifies(labs[0], require) then
      var q := Qualifying(labs[1..], require);
      assert ([labs[0]] + q)[1..] == q;
      labs[0].effective + GreedySum(labs[1..], budget - 1, require)
    else GreedySum(labs[1..], budget, require)
  }

  /** How many laboratories the loop counts: the budget, or fewer when fewer qualify. */
  function TakenCount(labs: seq<Lab>, budget: int, require: int): nat
  {
    var q := |Qualifying(labs, require)|;
    if budget <= 0 then 0 else if budget < q then budget else q
  }

  /**
   * The greedy sum is the sum of the first qualifying laboratories, as many as the budget
   * allows.
   */
  lemma {:induction false} GreedyIsQualifyingPrefix(labs: seq<Lab>, budget: int, require: int)
    ensures TakenCount(labs, budget, require) <= |Qualifying(labs, require)|
    ensures GreedySum(labs, budget, require)
            == SumEffective(Qualifying(labs, require)[..TakenCount(labs, budget, require)])
  {
    if labs != [] && budget > 0 {
      var rest := labs[1..];
      GreedyIsQualifyingPrefix(rest, budget - 1, require);
      GreedyIsQualifyingPrefix(rest, budget, require);
      var q := Qualifying(rest, require);
      if Qualifies(labs[0], require) {
        var k := TakenCount(rest, budget - 1, require);
        assert TakenCount(labs, budget, require) == k + 1;
        assert Qualifying(labs, require)[..k + 1] == [labs[0]] + q[..k];
        assert ([labs[0]] + q[..k])[1..] == q[..k];
      }
    }
  }

  /** Laboratories whose effective level is never negative, as `level * 2^nano` is. */
  predicate NonNegative(labs: seq<Lab>)
  {
    forall i :: 0 <= i < |labs| ==> labs[i].effective >= 0
  }

  /** With non-negative levels the greedy sum lies between 0 and the total of all qualifying laboratories. */
  lemma {:induction false} GreedyBound(labs: seq<Lab>, budget: int, require: int)
    requires NonNegative(labs)
    ensures 0 <= GreedySum(labs, budget, require) <= SumEffective(Qualifying(labs, require))
  {
    if labs != [] && budget > 0 {
      assert labs[0].effective >= 0;
      assert NonNegative(labs[1..]) by {
        forall i | 0 <= i < |labs[1..]| ensures labs[1..][i].effective >= 0 {
          assert labs[1..][i] == labs[i + 1];
        }
      }
      GreedyBound(labs[1..], budget - 1, require);
      GreedyBound(labs[1..], budget, require);
      GreedyBound(labs[1..], 0, require);
    } else if labs != [] {
      QualifyingNonNegative(labs, require);
      SumNonNegative(Qualifying(labs, require));
    }
  }

  lemma {:induction false} QualifyingNonNegative(labs: seq<Lab>, require: int)
    requires NonNegative(labs)
    ensures NonNegative(Qualifying(labs, require))
  {
    if labs != [] {
      assert NonNegative(labs[1..]) by {
        forall i | 0 <= i < |labs[1..]| ensures labs[1..][i].effective >= 0 {
          assert labs[1..][i] == labs[i + 1];
        }
      }
      QualifyingNonNegative(labs[1..], require);
      assert labs[0].effective >= 0;
    }
  }

  lemma {:induction false} SumNonNegative(labs: seq<Lab>)
    requires NonNegative(labs)
    ensures SumEffective(labs) >= 0
  {
    if labs != [] {
      assert labs[0].effective >= 0;
      assert NonNegative(labs[1..]) by {
        forall i | 0 <= i < |labs[1..]| ensures labs[1..][i].effective >= 0 {
          assert labs[1..][i] == labs[i + 1];
        }
      }
      SumNonNegative(labs[1..]);
    }
  }

  /** Every qualifying laboratory is one of the laboratories and qualifies. */
  lemma {:induction false} QualifyingMembers(labs: seq<Lab>, require: int, x: Lab)
    requires x in Qualifying(labs, require)
    ensures x in labs && Qualifies(x, require)
  {
    if labs != [] && !(Qualifies(labs[0], require) && x == labs[0]) {
      assert x in Qualifying(labs[1..], require);
      QualifyingMembers(labs[1..], require, x);
    }
  }

  /** Filtering keeps the order of a sorted list. */
  lemma {:induction false} QualifyingSorted(labs: seq<Lab>, require: int)
    requires SortedByEffectiveness(labs)
    ensures SortedByEffectiveness(Qualifying(labs, require))
  {
    if labs != [] {
      var rest := labs[1..];
      assert SortedByEffectiveness(rest) by {
        forall i, j | 0 <= i < j < |rest| ensures LabCompare(rest[i], rest[j]) <= 0 {
          assert rest[i] == labs[i + 1] && rest[j] == labs[j + 1];
        }
      }
      QualifyingSorted(rest, require);
      if Qualifies(labs[0], require) {
        var q := Qualifying(rest, require);
        var s := [labs[0]] + q;
        forall i, j | 0 <= i < j < |s| ensures LabCompare(s[i], s[j]) <= 0 {
          if i == 0 {
            QualifyingMembers(rest, require, s[j]);
            var k :| 0 <= k < |rest| && rest[k] == s[j];
            assert labs[k + 1] == s[j];
          } else {
            assert s[i] == q[i - 1] && s[j] == q[j - 1];
          }
        }
      }
    }
  }

  /**
   * On a list sorted by the comparator the loop counts the most effective qualifying
   * laboratories: each one it counts is at least as effective as each one it leaves out.
   */
  lemma GreedyTakesMostEffective(labs: seq<Lab>, budget: int, require: int, i: nat, j: nat)
    requires SortedByEffectiveness(labs)
    requires i < TakenCount(labs, budget, require) <= j < |Qualifying(labs, require)|
    ensures Qualifying(labs, require)[i].effective >= Qualifying(labs, require)[j].effective
  {
    QualifyingSorted(labs, require);
    assert LabCompare(Qualifying(labs, require)[i], Qualifying(labs, require)[j]) <= 0;
  }

  /** The summation loop of `eco_get_lab_max_effective_level`, with its early `break`. */
  method SumLabs(labs: seq<Lab>, research: int, require: int) returns (sum: int)
    ensures sum == GreedySum(labs, research + 1, require)
  {
    var budget := research + 1;
    sum := 0;
    var i := 0;
    while i < |labs|
      invariant 0 <= i <= |labs|
      invariant sum + GreedySum(labs[i..], budget, require) == GreedySum(labs, research + 1, require)
    {
      if budget <= 0 {
        break;
      }
      assert labs[i..][1..] == labs[i + 1..];
      if labs[i].level >= require {
        sum := sum + labs[i].effective;
        budget := budget - 1;
      }
      i := i + 1;
    }
  }

  /** The level that is stored: the sum when it is truthy, 1 otherwise. */
  function StoredLevel(sum: int): (r: int)
    ensures r != 0
    ensures sum != 0 ==> r == sum
  {
    if sum != 0 then sum else 1
  }

  /** `$user['research_effective_level']`: research levels cached per laboratory requirement. */
  class LabCache {
    var levels: map<int, int>

    /** Every cached level can be divided by, as line 208 does. */
    predicate Valid()
      reads this
    {
      forall k :: k in levels ==> levels[k] != 0
    }

    constructor ()
      ensures levels == map[] && Valid()
    {
      levels := map[];
    }

    /**
     * `eco_get_lab_max_effective_level` for a user who is not an alliance: the level cached
     * for `require`, computed over the sorted active laboratories on the first call.
     */
    method MaxEffectiveLevel(labs: seq<Lab>, research: int, require: int) returns (level: int)
      requires Valid()
      modifies this
      ensures Valid() && level != 0
      ensures require in levels && level == levels[require]
      ensures require in old(levels) ==> levels == old(levels)
      ensures require !in old(levels) ==>
                levels == old(levels)[require := StoredLevel(GreedySum(labs, research + 1, require))]
    {
      if require !in levels {
        var sum := SumLabs(labs, research, require);
        levels := levels[require := StoredLevel(sum)];
      }
      level := levels[require];
    }
  }

  // ---------------------------------------------------------------------------------------
  // Build permission

  /** The BUILD_* results. */
  datatype BuildResult =
    | BuildAllowed
    | BuildUnitBusy
    | BuildRequireNotMeet
    | BuildNoResources
    | BuildNoUnits
    | BuildIndestructable

  /** A unit's requirements, `require_id => require_level`, in declaration order. */
  type Requirements = seq<(int, int)>

  predicate RequirementMet(req: (int, int), level: int -> int)
  {
    level(req.0) >= req.1
  }

  predicate AllMet(reqs: Requirements, level: int -> int)
  {
    forall j :: 0 <= j < |reqs| ==> RequirementMet(reqs[j], level)
  }

  /** The index of the first requirement that is not met. */
  function FirstUnmet(reqs: Requirements, level: int -> int): (r: Option<nat>)
    ensures r.Some? ==> r.value < |reqs| && !RequirementMet(reqs[r.value], level)
  {
    if reqs == [] then None
    else if !RequirementMet(reqs[0], level) then Some(0)
    else match FirstUnmet(reqs[1..], level)
      case None => None
      case Some(j) => Some(j + 1)
  }

  lemma {:induction false} FirstUnmetSpec(reqs: Requirements, level: int -> int)
    ensures FirstUnmet(reqs, level).None? <==> AllMet(reqs, level)
    ensures FirstUnmet(reqs, level).Some? ==>
              var j := FirstUnmet(reqs, level).value;
              j < |reqs| && !RequirementMet(reqs[j], level) && AllMet(reqs[..j], level)
  {
    if reqs != [] && RequirementMet(reqs[0], level) {
      var rest := reqs[1..];
      FirstUnmetSpec(rest, level);
      assert forall j :: 0 <= j < |rest| ==> rest[j] == reqs[j + 1];
      if FirstUnmet(rest, level).Some? {
        var j := FirstUnmet(rest, level).value;
        assert forall k :: 0 <= k < j ==> reqs[..j + 1][k + 1] == rest[..j][k];
      } else {
        assert AllMet(reqs, level) by {
          forall j | 0 <= j < |reqs| ensures RequirementMet(reqs[j], level) {
            if j > 0 {
              assert reqs[j] == rest[j - 1];
            }
          }
        }
      }
    }
  }

  /** `isset($result) ? $result : BUILD_ALLOWED`. */
  function StartResult(prior: Option<BuildResult>): BuildResult
  {
    if prior.Some? then prior.value else BuildAllowed
  }

  /** What `sn_eco_can_build_unit` returns. */
  function BuildStatus(prior: Option<BuildResult>, busy: bool, reqs: Option<Requirements>, level: int -> int): (r: BuildResult)
    ensures r == StartResult(prior) || r == BuildUnitBusy || r == BuildRequireNotMeet
  {
    var start := StartResult(prior);
    if start != BuildAllowed then start
    else if busy then BuildUnitBusy
    else if reqs.Some? && FirstUnmet(reqs.value, level).Some? then BuildRequireNotMeet
    else BuildAllowed
  }

  /**
   * A unit may be built exactly when no earlier hook refused it, it is not busy and every
   * requirement is met; a refusal by an earlier hook is passed on unchanged; otherwise a
   * busy unit is reported busy, and an unmet requirement is reported as such.
   */
  lemma BuildStatusCases(prior: Option<BuildResult>, busy: bool, reqs: Option<Requirements>, level: int -> int)
    ensures BuildStatus(prior, busy, reqs, level) == BuildAllowed <==>
              StartResult(prior) == BuildAllowed && !busy && (reqs.None? || AllMet(reqs.value, level))
    ensures StartResult(prior) != BuildAllowed ==> BuildStatus(prior, busy, reqs, level) == StartResult(prior)
    ensures StartResult(prior) == BuildAllowed && busy ==> BuildStatus(prior, busy, reqs, level) == BuildUnitBusy
    ensures StartResult(prior) == BuildAllowed && !busy && reqs.Some? && !AllMet(reqs.value, level) ==>
              BuildStatus(prior, busy, reqs, level) == BuildRequireNotMeet
  {
    if reqs.Some? {
      FirstUnmetSpec(reqs.value, level);
    }
  }

  /**
   * `sn_eco_can_build_unit`. `busy` is what `eco_unit_busy` answers and `level` stands for
   * `mrc_get_level` on the user and the planet.
   */
  method CanBuildUnit(prior: Option<BuildResult>, busy: bool, reqs: Option<Requirements>, level: int -> int)
    returns (result: BuildResult)
    ensures result == BuildStatus(prior, busy, reqs, level)
  {
    result := if prior.Some? then prior.value else BuildAllowed;
    result := if result == BuildAllowed && busy then BuildUnitBusy else result;
    if result == BuildAllowed && reqs.Some? {
      var rs := reqs.value;
      var i := 0;
      while i < |rs|
        invariant 0 <= i <= |rs|
        invariant result == BuildAllowed ==> AllMet(rs[..i], level)
        invariant result == BuildAllowed || (result == BuildRequireNotMeet && !AllMet(rs, level))
      {
        if level(rs[i].0) < rs[i].1 {
          result := BuildRequireNotMeet;
          break;
        }
        assert rs[..i + 1] == rs[..i] + [rs[i]];
        i := i + 1;
      }
      assert result == BuildAllowed ==> rs[..|rs|] == rs;
      FirstUnmetSpec(rs, level);
    }
  }

  /** Line 189: an allowed creation becomes BUILD_NO_RESOURCES when none can be paid for. */
  function CreateResult(result: BuildResult, canCreate: int): (r: BuildResult)
    ensures result != BuildAllowed ==> r == result
    ensures result == BuildAllowed ==> (r == BuildAllowed <==> canCreate != 0)
    ensures r == BuildAllowed || r == BuildNoResources || r == result
  {
    if result == BuildAllowed then (if canCreate != 0 then BuildAllowed else BuildNoResources) else result
  }

  /**
   * `eco_get_build_data` with no earlier refusal reports a creation as allowed exactly when
   * the unit is not busy, every requirement is met and at least one can be paid for.
   */
  lemma CreateAllowed(busy: bool, reqs: Option<Requirements>, level: int -> int, canCreate: int)
    ensures CreateResult(BuildStatus(None, busy, reqs, level), canCreate) == BuildAllowed <==>
              !busy && (reqs.None? || AllMet(reqs.value, level)) && canCreate != 0
  {
    BuildStatusCases(None, busy, reqs, level);
  }

  // ---------------------------------------------------------------------------------------
  // Build queue

  /** The `$unit_list` argument: an array of unit ids, or one id that stands for `[id]`. */
  datatype UnitList = UnitArray(ids: seq<int>) | UnitScalar(id: int)

  function Units(u: UnitList): (r: seq<int>)
    ensures u.UnitScalar? ==> r == [u.id]
  {
    match u
    case UnitArray(ids) => ids
    case UnitScalar(id) => [id]
  }

  /** The unit id of a queue item: its first `,`-separated component, read as a number. */
  function QueUnit(item: string): int
  {
    LeadingInt(Split(item, ',')[0])
  }

  /** A queue item that is truthy and whose unit is (loosely) one of `units`. */
  predicate Hit(item: string, units: seq<int>)
  {
    !IsEmpty(Str(item)) && QueUnit(item) in units
  }

  /** Some `;`-separated item of the queue is a hit; an empty queue or unit list has none. */
  predicate InQue(que: string, units: seq<int>)
    ensures InQue(que, units) ==> que != "" && units != []
  {
    assert que == "" ==> Split(que, ';') == [""];
    var items := Split(que, ';');
    exists i :: 0 <= i < |items| && Hit(items[i], units)
  }

  /** `eco_is_builds_in_que`: the scan over the queue items, stopping at the first hit. */
  method IsBuildsInQue(que: string, unitList: UnitList) returns (found: bool)
    ensures found == InQue(que, Units(unitList))
  {
    var units := Units(unitList);
    var items := Split(que, ';');
    found := false;
    var i := 0;
    while i < |items|
      invariant 0 <= i <= |items|
      invariant !found && forall j :: 0 <= j < i ==> !Hit(items[j], units)
    {
      if Hit(items[i], units) {
        found := true;
        break;
      }
      i := i + 1;
    }
  }

  /** An empty queue string holds nothing. */
  lemma EmptyQueueIdle(units: seq<int>)
    ensures !InQue("", units)
  {
    assert Split("", ';') == [""];
  }

  /** A queue entry `id,amount` as it is written into the queue string. */
  function RenderItem(id: int, amount: int): string
  {
    Decimal(id) + [','] + Decimal(amount)
  }

  function RenderQue(entries: seq<(int, int)>): string
  {
    Join(seq(|entries|, k requires 0 <= k < |entries| => RenderItem(entries[k].0, entries[k].1)), ';')
  }

  /** The rendering of an integer holds only digits and a sign. */
  lemma DecimalHasNo(n: int, c: char)
    requires !IsDigit(c) && c != '-'
    ensures c !in Decimal(n)
  {
    var m: nat := if n >= 0 then n else -n;
    var d := NatDigits(m);
    assert forall i :: 0 <= i < |d| ==> d[i] != c by {
      assert AllDigits(d);
    }
    if n < 0 {
      assert Decimal(n) == "-" + d;
    }
  }

  /** The unit of a rendered entry is its id, and the rendered entry is truthy. */
  lemma RenderItemReads(id: int, amount: int)
    ensures !IsEmpty(Str(RenderItem(id, amount)))
    ensures QueUnit(RenderItem(id, amount)) == id
    ensures ';' !in RenderItem(id, amount)
  {
    var item := RenderItem(id, amount);
    assert item[|Decimal(id)|] == ',';
    DecimalHasNo(id, ',');
    DecimalHasNo(id, ';');
    DecimalHasNo(amount, ';');
    SplitAtFirst(Decimal(id), ',', Decimal(amount));
    LeadingIntOfDecimal(id);
  }

  /**
   * Reading back a queue string written from entries: it holds a unit of `units` exactly
   * when one of the entries has such an id.
   */
  lemma QueRoundTrip(entries: seq<(int, int)>, units: seq<int>)
    ensures InQue(RenderQue(entries), units) <==> exists k :: 0 <= k < |entries| && entries[k].0 in units
  {
    var xs := seq(|entries|, k requires 0 <= k < |entries| => RenderItem(entries[k].0, entries[k].1));
    if entries == [] {
      EmptyQueueIdle(units);
    } else {
      forall k | 0 <= k < |xs| ensures ';' !in xs[k] && !IsEmpty(Str(xs[k])) && QueUnit(xs[k]) == entries[k].0 {
        RenderItemReads(entries[k].0, entries[k].1);
      }
      SplitJoin(xs, ';');
      assert Split(RenderQue(entries), ';') == xs;
      if exists k :: 0 <= k < |entries| && entries[k].0 in units {
        var k :| 0 <= k < |entries| && entries[k].0 in units;
        assert Hit(xs[k], units);
      }
    }
  }
}
