/**
 * Section D of the dashboard: the approval rate of each group of a protected
 * attribute (the mean of the 0/1 `approved_flag` over the group), the smallest and
 * largest rate, their ratio (disparate impact) and the governance verdict on it.
 */
module Fairness {
  import opened Wrappers
  import opened Tables
  import opened Schema
  import opened Governance

  /** One row of the fairness table, reduced to its group value and its flag. */
  datatype Observation = Observation(group: Cell, flag: real)

  /** The number of observations in group `k`. */
  function GroupSize(obs: seq<Observation>, k: Cell): nat
  {
    if obs == [] then 0
    else GroupSize(obs[..|obs| - 1], k) + (if obs[|obs| - 1].group == k then 1 else 0)
  }

  /** The sum of the flags of the observations in group `k`. */
  function GroupSum(obs: seq<Observation>, k: Cell): real
  {
    if obs == [] then 0.0
    else GroupSum(obs[..|obs| - 1], k) + (if obs[|obs| - 1].group == k then obs[|obs| - 1].flag else 0.0)
  }

  function GroupValues(obs: seq<Observation>): set<Cell>
  {
    set o | o in obs :: o.group
  }

  /** A running group: its value, the sum of its flags and its number of rows. */
  datatype Accumulator = Accumulator(group: Cell, flagSum: real, size: nat)

  predicate DistinctGroups(acc: seq<Accumulator>)
  {
    forall i, j :: 0 <= i < j < |acc| ==> acc[i].group != acc[j].group
  }

  function AccGroups(acc: seq<Accumulator>): set<Cell>
  {
    set a | a in acc :: a.group
  }

  /** The rows counted for group `k` across the accumulators. */
  function AccSize(acc: seq<Accumulator>, k: Cell): nat
  {
    if acc == [] then 0 else (if acc[0].group == k then acc[0].size else 0) + AccSize(acc[1..], k)
  }

  /** The flags summed for group `k` across the accumulators. */
  function AccSum(acc: seq<Accumulator>, k: Cell): real
  {
    if acc == [] then 0.0 else (if acc[0].group == k then acc[0].flagSum else 0.0) + AccSum(acc[1..], k)
  }

  /**
   * Adds one observation: to the accumulator of its group if there is one, else as
   * a new group at the end.
   */
  function Add(acc: seq<Accumulator>, o: Observation): (r: seq<Accumulator>)
    requires DistinctGroups(acc)
    ensures DistinctGroups(r)
    ensures AccGroups(r) == AccGroups(acc) + {o.group}
  {
    if acc == [] then [Accumulator(o.group, o.flag, 1)]
    else
      FirstGroupNotInTail(acc);
      Cons(acc[0], acc[1..]);
      if acc[0].group == o.group then
        var a := Accumulator(o.group, acc[0].flagSum + o.flag, acc[0].size + 1);
        Cons(a, acc[1..]);
        [a] + acc[1..]
      else
        var tail := Add(acc[1..], o);
        Cons(acc[0], tail);
        [acc[0]] + tail
  }

  /** Putting a new group in front of accumulators with distinct groups keeps them distinct. */
  lemma Cons(a: Accumulator, tail: seq<Accumulator>)
    ensures AccGroups([a] + tail) == {a.group} + AccGroups(tail)
    ensures DistinctGroups(tail) && a.group !in AccGroups(tail) ==> DistinctGroups([a] + tail)
  {
  }

  /** With distinct groups, the first group does not recur further on. */
  lemma FirstGroupNotInTail(acc: seq<Accumulator>)
    requires DistinctGroups(acc) && acc != []
    ensures DistinctGroups(acc[1..])
    ensures acc[0].group !in AccGroups(acc[1..])
  {
  }

  /** Adding an observation counts one more row, and its flag, for its own group only. */
  lemma {:induction false} AddCounts(acc: seq<Accumulator>, o: Observation, k: Cell)
    requires DistinctGroups(acc)
    ensures AccSize(Add(acc, o), k) == AccSize(acc, k) + (if k == o.group then 1 else 0)
    ensures AccSum(Add(acc, o), k) == AccSum(acc, k) + (if k == o.group then o.flag else 0.0)
  {
    if acc != [] {
      FirstGroupNotInTail(acc);
      if acc[0].group == o.group {
        var r := Add(acc, o);
        assert r[1..] == acc[1..];
        if k == o.group {
          AccSizeAbsent(acc[1..], k);
          AccSumAbsent(acc[1..], k);
        }
      } else {
        AddCounts(acc[1..], o, k);
        assert Add(acc, o)[1..] == Add(acc[1..], o);
      }
    }
  }

  /** Adding an observation never leaves an empty group. */
  lemma {:induction false} AddNonEmpty(acc: seq<Accumulator>, o: Observation)
    requires DistinctGroups(acc)
    requires forall a :: a in acc ==> a.size > 0
    ensures forall a :: a in Add(acc, o) ==> a.size > 0
  {
    if acc != [] && acc[0].group != o.group {
      FirstGroupNotInTail(acc);
      AddNonEmpty(acc[1..], o);
    }
  }

  lemma {:induction false} AccSizeAbsent(acc: seq<Accumulator>, k: Cell)
    requires k !in AccGroups(acc)
    ensures AccSize(acc, k) == 0
  {
    if acc != [] {
      assert acc[0] in acc;
      assert AccGroups(acc[1..]) <= AccGroups(acc);
      AccSizeAbsent(acc[1..], k);
    }
  }

  lemma {:induction false} AccSumAbsent(acc: seq<Accumulator>, k: Cell)
    requires k !in AccGroups(acc)
    ensures AccSum(acc, k) == 0.0
  {
    if acc != [] {
      assert acc[0] in acc;
      assert AccGroups(acc[1..]) <= AccGroups(acc);
      AccSumAbsent(acc[1..], k);
    }
  }

  /**
   * Groups the observations by group value: one accumulator per distinct value, no
   * empty group, and each accumulator holds exactly the size and the flag sum of
   * its group.
   */
  function GroupBy(obs: seq<Observation>): (acc: seq<Accumulator>)
    ensures DistinctGroups(acc)
    ensures AccGroups(acc) == GroupValues(obs)
    ensures forall a :: a in acc ==> a.size > 0
    ensures forall k :: AccSize(acc, k) == GroupSize(obs, k) && AccSum(acc, k) == GroupSum(obs, k)
  {
    if obs == [] then []
    else
      var init, last := obs[..|obs| - 1], obs[|obs| - 1];
      assert obs == init + [last];
      assert GroupValues(obs) == GroupValues(init) + {last.group};
      var acc := GroupBy(init);
      AddNonEmpty(acc, last);
      assert forall k :: AccSize(Add(acc, last), k) == GroupSize(obs, k) && AccSum(Add(acc, last), k) == GroupSum(obs, k) by {
        forall k ensures AccSize(Add(acc, last), k) == GroupSize(obs, k) && AccSum(Add(acc, last), k) == GroupSum(obs, k) {
          AddCounts(acc, last, k);
        }
      }
      Add(acc, last)
  }

  /** In accumulators with distinct groups, an accumulator holds all of its group. */
  lemma {:induction false} AccumulatorIsWholeGroup(acc: seq<Accumulator>, i: int)
    requires DistinctGroups(acc) && 0 <= i < |acc|
    ensures AccSize(acc, acc[i].group) == acc[i].size
    ensures AccSum(acc, acc[i].group) == acc[i].flagSum
  {
    FirstGroupNotInTail(acc);
    if i == 0 {
      AccSizeAbsent(acc[1..], acc[0].group);
      AccSumAbsent(acc[1..], acc[0].group);
    } else {
      assert acc[1..][i - 1] == acc[i];
      AccumulatorIsWholeGroup(acc[1..], i - 1);
    }
  }

  /** One row of the group summary the dashboard shows. */
  datatype GroupRate = GroupRate(group: Cell, approvalRate: real)

  /** The mean of `size` values whose sum is `sum`. */
  function Mean(sum: real, size: nat): real
    requires size > 0
  {
    sum / size as real
  }

  /**
   * The group summary: one row per distinct group value, whose approval rate is the
   * mean flag of that group.
   */
  function GroupMeans(obs: seq<Observation>): (grp: seq<GroupRate>)
    ensures forall i, j :: 0 <= i < j < |grp| ==> grp[i].group != grp[j].group
    ensures (set g | g in grp :: g.group) == GroupValues(obs)
    ensures forall i :: 0 <= i < |grp| ==>
              GroupSize(obs, grp[i].group) > 0 && grp[i].approvalRate == Mean(GroupSum(obs, grp[i].group), GroupSize(obs, grp[i].group))
  {
    var acc := GroupBy(obs);
    var grp := seq(|acc|, i requires 0 <= i < |acc| => GroupRate(acc[i].group, Mean(acc[i].flagSum, acc[i].size)));
    SameGroups(acc, grp);
    assert forall i :: 0 <= i < |grp| ==>
             GroupSize(obs, grp[i].group) > 0 && grp[i].approvalRate == Mean(GroupSum(obs, grp[i].group), GroupSize(obs, grp[i].group)) by {
      forall i | 0 <= i < |grp|
        ensures GroupSize(obs, grp[i].group) > 0 && grp[i].approvalRate == Mean(GroupSum(obs, grp[i].group), GroupSize(obs, grp[i].group))
      {
        AccumulatorIsWholeGroup(acc, i);
      }
    }
    grp
  }

  /** Summary rows built one per accumulator carry the accumulators' distinct groups. */
  lemma SameGroups(acc: seq<Accumulator>, grp: seq<GroupRate>)
    requires DistinctGroups(acc)
    requires |grp| == |acc| && forall i :: 0 <= i < |acc| ==> grp[i].group == acc[i].group
    ensures forall i, j :: 0 <= i < j < |grp| ==> grp[i].group != grp[j].group
    ensures (set g | g in grp :: g.group) == AccGroups(acc)
  {
  }

  predicate ZeroOneFlags(obs: seq<Observation>)
  {
    forall i :: 0 <= i < |obs| ==> obs[i].flag == 0.0 || obs[i].flag == 1.0
  }

  /** With 0/1 flags a group's flag sum lies between 0 and its size. */
  lemma {:induction false} GroupSumBounds(obs: seq<Observation>, k: Cell)
    requires ZeroOneFlags(obs)
    ensures 0.0 <= GroupSum(obs, k) <= GroupSize(obs, k) as real
  {
    if obs != [] {
      GroupSumBounds(obs[..|obs| - 1], k);
    }
  }

  lemma MeanBounds(sum: real, size: nat)
    requires size > 0 && 0.0 <= sum <= size as real
    ensures 0.0 <= Mean(sum, size) <= 1.0
  {
    var n := size as real;
    assert Mean(sum, size) * n == sum;
  }

  /** With 0/1 flags every approval rate lies in [0, 1]. */
  lemma RatesInUnitInterval(obs: seq<Observation>)
    requires ZeroOneFlags(obs)
    ensures forall g :: g in GroupMeans(obs) ==> 0.0 <= g.approvalRate <= 1.0
  {
    var grp := GroupMeans(obs);
    forall g | g in grp ensures 0.0 <= g.approvalRate <= 1.0 {
      var i :| 0 <= i < |grp| && grp[i] == g;
      GroupSumBounds(obs, g.group);
      MeanBounds(GroupSum(obs, g.group), GroupSize(obs, g.group));
    }
  }

  function Rates(grp: seq<GroupRate>): (rates: seq<real>)
    ensures |rates| == |grp|
    ensures forall i :: 0 <= i < |grp| ==> rates[i] == grp[i].approvalRate
  {
    seq(|grp|, i requires 0 <= i < |grp| => grp[i].approvalRate)
  }

  /** The smallest rate; none (a NaN in the dashboard) when there are no groups. */
  function MinRate(rates: seq<real>): (m: Option<real>)
    ensures m.None? <==> rates == []
    ensures m.Some? ==> m.value in rates && forall x :: x in rates ==> m.value <= x
  {
    if rates == [] then None
    else match MinRate(rates[1..])
      case None => Some(rates[0])
      case Some(rest) =>
        assert forall x :: x in rates ==> x == rates[0] || x in rates[1..];
        Some(if rates[0] <= rest then rates[0] else rest)
  }

  /** The largest rate; none (a NaN in the dashboard) when there are no groups. */
  function MaxRate(rates: seq<real>): (m: Option<real>)
    ensures m.None? <==> rates == []
    ensures m.Some? ==> m.value in rates && forall x :: x in rates ==> x <= m.value
  {
    if rates == [] then None
    else match MaxRate(rates[1..])
      case None => Some(rates[0])
      case Some(rest) =>
        assert forall x :: x in rates ==> x == rates[0] || x in rates[1..];
        Some(if rates[0] >= rest then rates[0] else rest)
  }

  predicate NonNegative(rates: seq<real>)
  {
    forall x :: x in rates ==> x >= 0.0
  }

  /**
   * Disparate impact: the smallest rate over the largest when the largest is
   * positive, and 0 otherwise (no groups, or no group with a positive rate).
   */
  function DisparateImpact(rates: seq<real>): (di: real)
    ensures (forall x :: x in rates ==> x <= 0.0) ==> di == 0.0
    ensures NonNegative(rates) ==> 0.0 <= di <= 1.0
    ensures NonNegative(rates) ==> (di == 0.0 <==> rates == [] || 0.0 in rates)
    ensures forall lo, hi :: lo in rates && hi in rates && (forall x :: x in rates ==> lo <= x <= hi) && hi > 0.0 ==>
              di == lo / hi
  {
    match (MinRate(rates), MaxRate(rates))
    case (Some(lo), Some(hi)) =>
      if hi > 0.0 then
        assert NonNegative(rates) ==> 0.0 <= lo by {
          if NonNegative(rates) { assert lo in rates; }
        }
        RatioFacts(lo, hi);
        lo / hi
      else 0.0
    case _ => 0.0
  }

  /** The ratio of two rates 0 <= lo <= hi with hi > 0. */
  lemma RatioFacts(lo: real, hi: real)
    requires hi > 0.0
    ensures 0.0 <= lo <= hi ==> 0.0 <= lo / hi <= 1.0
    ensures lo / hi == 0.0 <==> lo == 0.0
    ensures lo / hi == 1.0 <==> lo == hi
  {
    var q := lo / hi;
    assert q * hi == lo;
  }

  /**
   * For non-negative rates the ratio is 1 exactly when there is at least one group,
   * every group has the same rate, and that rate is positive.
   */
  lemma DisparateImpactOne(rates: seq<real>)
    requires NonNegative(rates)
    ensures DisparateImpact(rates) == 1.0 <==>
              rates != [] && rates[0] > 0.0 && forall x :: x in rates ==> x == rates[0]
  {
    if rates != [] {
      assert rates[0] in rates;
      var lo, hi := MinRate(rates).value, MaxRate(rates).value;
      if hi > 0.0 {
        RatioFacts(lo, hi);
      }
      if DisparateImpact(rates) == 1.0 {
        assert hi > 0.0 && lo == hi;
      }
      if rates[0] > 0.0 && forall x :: x in rates ==> x == rates[0] {
        assert lo == hi == rates[0];
      }
    }
  }

  /** For non-negative rates the ratio is at most the ratio of any two group rates. */
  lemma DisparateImpactIsWorstRatio(rates: seq<real>, x: real, y: real)
    requires NonNegative(rates) && x in rates && y in rates && y > 0.0
    ensures DisparateImpact(rates) <= x / y
  {
    var lo, hi := MinRate(rates).value, MaxRate(rates).value;
    assert 0.0 <= lo <= x && y <= hi;
    calc {
      lo / hi;
    <= { DivideMonotone(lo, x, hi); }
      x / hi;
    <= { DivideAntitone(x, y, hi); }
      x / y;
    }
  }

  lemma DivideMonotone(a: real, b: real, c: real)
    requires a <= b && c > 0.0
    ensures a / c <= b / c
  {
  }

  lemma DivideAntitone(a: real, c: real, d: real)
    requires a >= 0.0 && 0.0 < c <= d
    ensures a / d <= a / c
  {
    assert a / d * d == a;
    assert a / c * c == a;
    assert a / c * d >= a / c * c;
  }

  /** What section D shows for the selected attribute. */
  datatype FairnessReport = FairnessReport(
    groups: seq<GroupRate>,
    minRate: Option<real>,
    maxRate: Option<real>,
    di: real,
    rule: Verdict,
    action: Action)

  datatype FairnessSkip =
    | MissingApprovedFlag      // warning: the fairness artifact lacks approved_flag
    | NoProtectedAttributes    // warning: no SEX, AGE_GROUP or EDUCATION column
    | NotOffered(col: string)  // the selector offers only the protected attributes

  /** The rows of the fairness table as (group value, flag) pairs for column `groupCol`. */
  function Observations(t: Table, groupCol: string): (obs: seq<Observation>)
    requires NumericColumn(t, "approved_flag")
    requires forall i :: 0 <= i < |t.rows| ==> groupCol in t.rows[i]
    ensures |obs| == |t.rows|
    ensures forall i :: 0 <= i < |t.rows| ==> obs[i] == Observation(t.rows[i][groupCol], t.rows[i]["approved_flag"].x)
  {
    seq(|t.rows|, i requires 0 <= i < |t.rows| => Observation(t.rows[i][groupCol], t.rows[i]["approved_flag"].x))
  }

  /**
   * Section D: skipped with a warning when `approved_flag` or every protected
   * attribute is missing; otherwise the group summary of the selected attribute,
   * the ratio of its extreme rates, the 80% rule and the recommended action.
   */
  function FairnessSection(t: Table, groupCol: string): (res: Result<FairnessReport, FairnessSkip>)
    requires Rectangular(t)
    requires "approved_flag" in t.columns ==> NumericColumn(t, "approved_flag")
    ensures res == Err(MissingApprovedFlag) <==> "approved_flag" !in t.columns
    ensures res == Err(NoProtectedAttributes) <==> "approved_flag" in t.columns && ProtectedAttributes(t.columns) == []
    ensures res.Ok? <==> "approved_flag" in t.columns && groupCol in ProtectedAttributes(t.columns)
    ensures res.Ok? ==> (set g | g in res.value.groups :: g.group) == set i | 0 <= i < |t.rows| :: t.rows[i][groupCol]
    ensures res.Ok? ==> res.value.groups == GroupMeans(Observations(t, groupCol))
    ensures res.Ok? ==> res.value.minRate == MinRate(Rates(res.value.groups))
    ensures res.Ok? ==> res.value.maxRate == MaxRate(Rates(res.value.groups))
    ensures res.Ok? ==> res.value.di == DisparateImpact(Rates(res.value.groups))
    ensures res.Ok? ==> res.value.rule == EightyPercentRule(res.value.di)
    ensures res.Ok? ==> res.value.action == GovernanceAction(res.value.di)
    ensures res.Ok? ==> (res.value.rule == Fail <==> res.value.action != NoActionRequired)
    ensures res.Ok? && ZeroOneFlags(Observations(t, groupCol)) ==> 0.0 <= res.value.di <= 1.0
  {
    if "approved_flag" !in t.columns then Err(MissingApprovedFlag)
    else
      var protected := ProtectedAttributes(t.columns);
      if protected == [] then Err(NoProtectedAttributes)
      else if groupCol !in protected then Err(NotOffered(groupCol))
      else
        var obs := Observations(t, groupCol);
        var grp := GroupMeans(obs);
        assert GroupValues(obs) == set i | 0 <= i < |t.rows| :: t.rows[i][groupCol] by {
          forall k | k in GroupValues(obs) ensures exists i :: 0 <= i < |t.rows| && t.rows[i][groupCol] == k {
            var o :| o in obs && o.group == k;
            var i :| 0 <= i < |obs| && obs[i] == o;
          }
          forall i | 0 <= i < |t.rows| ensures t.rows[i][groupCol] in GroupValues(obs) {
            assert obs[i] in obs;
          }
        }
        var rates := Rates(grp);
        assert ZeroOneFlags(obs) ==> NonNegative(rates) by {
          if ZeroOneFlags(obs) {
            RatesInUnitInterval(obs);
            forall x | x in rates ensures x >= 0.0 {
              var i :| 0 <= i < |rates| && rates[i] == x;
              assert grp[i] in grp;
            }
          }
        }
        var di := DisparateImpact(rates);
        FailIffActionRequired(di);
        Ok(FairnessReport(grp, MinRate(rates), MaxRate(rates), di, EightyPercentRule(di), GovernanceAction(di)))
  }

  /** Two groups with approval rates 0.9 and 0.5: ratio 5/9, the rule fails, auto-approval is disabled. */
  lemma TwoGroupScenario()
    ensures DisparateImpact([0.9, 0.5]) == 5.0 / 9.0
    ensures EightyPercentRule(5.0 / 9.0) == Fail
    ensures GovernanceAction(5.0 / 9.0) == DisableAutoApproval
  {
    assert MinRate([0.9, 0.5]) == Some(0.5);
    assert MaxRate([0.9, 0.5]) == Some(0.9);
  }
}
