/** The policy of the dynamic hole set (`holes::plan`): a pure function of a snapshot of the holes. */
module Holes {
  import opened Prelude

  datatype HoleState = Warming | Active | Draining

  /** One hole at the moment of evaluation; losses are shares, absent while the sample is small. */
  datatype HoleInfo = HoleInfo(id: nat, state: HoleState, age: nat, maxAge: nat, lossOut: Option<real>,
                               lossIn: Option<real>, sample: nat)

  datatype Action = Open | Retire(id: nat)

  datatype PoolPolicy = PoolPolicy(minActive: nat, maxTotal: nat, addInterval: nat, badLoss: real, cullLoss: real,
                                   cullMinSample: nat, grace: nat)

  predicate IsLive(h: HoleInfo) {
    h.state != Draining
  }

  function LossOf(loss: Option<real>): real {
    if loss.Some? then loss.value else 0.0
  }

  predicate IsBadlyLossy(h: HoleInfo, policy: PoolPolicy) {
    && h.age >= policy.grace
    && ((h.lossOut.Some? && h.lossOut.value > policy.badLoss) || (h.lossIn.Some? && h.lossIn.value > policy.badLoss))
  }

  function WorstLoss(h: HoleInfo): real {
    if LossOf(h.lossOut) >= LossOf(h.lossIn) then LossOf(h.lossOut) else LossOf(h.lossIn)
  }

  function Filter(holes: seq<HoleInfo>, keep: HoleInfo -> bool): (r: seq<HoleInfo>)
    ensures |r| <= |holes|
  {
    if holes == [] then []
    else (if keep(holes[0]) then [holes[0]] else []) + Filter(holes[1..], keep)
  }

  function Live(holes: seq<HoleInfo>): seq<HoleInfo> {
    Filter(holes, h => IsLive(h))
  }

  function InWork(holes: seq<HoleInfo>): seq<HoleInfo> {
    Filter(holes, (h: HoleInfo) => h.state == Active)
  }

  function BadlyLossy(holes: seq<HoleInfo>, policy: PoolPolicy): seq<HoleInfo> {
    Filter(holes, h => IsLive(h) && IsBadlyLossy(h, policy))
  }

  function Expired(holes: seq<HoleInfo>): seq<HoleInfo> {
    Filter(holes, h => IsLive(h) && h.age >= h.maxAge)
  }

  /** Stable, oldest first (`sort_by_key` with the age reversed). */
  function InsertByAge(h: HoleInfo, s: seq<HoleInfo>): (r: seq<HoleInfo>)
    ensures |r| == |s| + 1
  {
    if s == [] || h.age >= s[0].age then [h] + s else [s[0]] + InsertByAge(h, s[1..])
  }

  function OldestFirst(s: seq<HoleInfo>): (r: seq<HoleInfo>)
    ensures |r| == |s|
  {
    if s == [] then [] else InsertByAge(s[0], OldestFirst(s[1..]))
  }

  predicate MayCull(h: HoleInfo, policy: PoolPolicy) {
    h.state == Active && h.age >= policy.grace && h.sample >= policy.cullMinSample
  }

  /** `a` comes before `b` in the order of `max_by`: by loss, then by age. */
  predicate NoWorse(a: HoleInfo, b: HoleInfo) {
    WorstLoss(a) < WorstLoss(b) || (WorstLoss(a) == WorstLoss(b) && a.age <= b.age)
  }

  /** The last of the worst holes, as `max_by` picks it. */
  function Worst(s: seq<HoleInfo>): HoleInfo
    requires s != []
  {
    if |s| == 1 then s[0]
    else
      var w := Worst(s[..|s| - 1]);
      if NoWorse(w, s[|s| - 1]) then s[|s| - 1] else w
  }

  function Opens(n: nat): (r: seq<Action>)
    ensures |r| == n
  {
    seq(n, _ => Open)
  }

  function Retires(s: seq<HoleInfo>): (r: seq<Action>)
    ensures |r| == |s|
  {
    seq(|s|, i requires 0 <= i < |s| => Retire(s[i].id))
  }

  function Replacements(s: seq<HoleInfo>): seq<Action> {
    if s == [] then [] else [Retire(s[0].id), Open] + Replacements(s[1..])
  }

  function Plan(holes: seq<HoleInfo>, sinceLastOpen: nat, policy: PoolPolicy): seq<Action> {
    var live, active := |Live(holes)|, |InWork(holes)|;
    var slack := Minus(active, policy.minActive);
    var bad, expired := BadlyLossy(holes, policy), Expired(holes);
    var candidates := Filter(holes, h => MayCull(h, policy));
    if live < policy.minActive then Opens(policy.minActive - live)
    else if bad != [] then Replacements(bad)
    else if slack > 0 && expired != [] then Retires(OldestFirst(expired)[..Min(slack, |expired|)])
    else if |holes| < policy.maxTotal && sinceLastOpen >= policy.addInterval then [Open]
    else if active > policy.minActive && candidates != [] && WorstLoss(Worst(candidates)) > policy.cullLoss
    then [Retire(Worst(candidates).id)]
    else []
  }

  // ---------------------------------------------------------------- counting and membership

  function CountOpens(actions: seq<Action>): nat {
    if actions == [] then 0 else (if actions[0].Open? then 1 else 0) + CountOpens(actions[1..])
  }

  /** The holes the plan asks to drain, in order. */
  function Retired(actions: seq<Action>): seq<nat> {
    if actions == [] then [] else (if actions[0].Retire? then [actions[0].id] else []) + Retired(actions[1..])
  }

  function Ids(s: seq<HoleInfo>): (r: seq<nat>)
    ensures |r| == |s|
  {
    seq(|s|, i requires 0 <= i < |s| => s[i].id)
  }

  ghost predicate DistinctIds(s: seq<HoleInfo>) {
    forall i, j | 0 <= i < j < |s| :: s[i].id != s[j].id
  }

  lemma {:induction false} FilterKeeps(holes: seq<HoleInfo>, keep: HoleInfo -> bool)
    ensures forall h :: h in Filter(holes, keep) <==> h in holes && keep(h)
    ensures DistinctIds(holes) ==> DistinctIds(Filter(holes, keep))
  {
    if holes != [] {
      var rest := Filter(holes[1..], keep);
      FilterKeeps(holes[1..], keep);
      assert holes == [holes[0]] + holes[1..];
      if DistinctIds(holes) {
        assert forall j | 0 <= j < |holes[1..]| :: holes[1..][j] == holes[j + 1];
        assert DistinctIds(holes[1..]);
        forall h | h in rest
          ensures h.id != holes[0].id
        {
          assert h in holes[1..];
        }
      }
    }
  }

  /** A stronger filter keeps no more. */
  lemma {:induction false} FilterIsMonotone(holes: seq<HoleInfo>, strong: HoleInfo -> bool, weak: HoleInfo -> bool)
    requires forall h | h in holes :: strong(h) ==> weak(h)
    ensures |Filter(holes, strong)| <= |Filter(holes, weak)|
  {
    if holes != [] {
      FilterIsMonotone(holes[1..], strong, weak);
    }
  }

  lemma {:induction false} OpensAreOpens(n: nat)
    ensures CountOpens(Opens(n)) == n && Retired(Opens(n)) == []
  {
    if n > 0 {
      assert Opens(n)[1..] == Opens(n - 1);
      OpensAreOpens(n - 1);
    }
  }

  lemma {:induction false} RetiresRetire(s: seq<HoleInfo>)
    ensures CountOpens(Retires(s)) == 0 && Retired(Retires(s)) == Ids(s)
  {
    if s != [] {
      assert Retires(s)[1..] == Retires(s[1..]);
      RetiresRetire(s[1..]);
      assert Ids(s) == [s[0].id] + Ids(s[1..]);
    }
  }

  lemma {:induction false} ReplacementsReplace(s: seq<HoleInfo>)
    ensures CountOpens(Replacements(s)) == |s| && Retired(Replacements(s)) == Ids(s)
  {
    if s != [] {
      var r := Replacements(s);
      assert r[1..] == [Open] + Replacements(s[1..]) && r[1..][1..] == Replacements(s[1..]);
      ReplacementsReplace(s[1..]);
      assert Ids(s) == [s[0].id] + Ids(s[1..]);
    }
  }

  /** Each retirement is followed at once by the opening that replaces it. */
  lemma {:induction false} ReplacementsAlternate(s: seq<HoleInfo>, i: nat)
    requires i < |s|
    ensures |Replacements(s)| == 2 * |s|
    ensures Replacements(s)[2 * i] == Retire(s[i].id) && Replacements(s)[2 * i + 1] == Open
  {
    var r := Replacements(s);
    assert r[2..] == Replacements(s[1..]);
    if |s| > 1 {
      ReplacementsAlternate(s[1..], if i == 0 then 0 else i - 1);
      assert i > 0 ==> r[2 * i] == r[2..][2 * (i - 1)] && r[2 * i + 1] == r[2..][2 * (i - 1) + 1];
    }
  }

  lemma OneAction(a: Action)
    ensures CountOpens([a]) == (if a.Open? then 1 else 0) && Retired([a]) == (if a.Retire? then [a.id] else [])
  {
    assert [a][1..] == [];
  }

  // ---------------------------------------------------------------- sorting by age

  ghost predicate ByAge(s: seq<HoleInfo>) {
    forall i, j | 0 <= i < j < |s| :: s[i].age >= s[j].age
  }

  lemma ByAgeWithHead(head: HoleInfo, t: seq<HoleInfo>)
    requires ByAge(t) && (t != [] ==> head.age >= t[0].age)
    ensures ByAge([head] + t)
  {
  }

  lemma {:induction false} InsertByAgeSorts(h: HoleInfo, s: seq<HoleInfo>)
    ensures multiset(InsertByAge(h, s)) == multiset(s) + multiset{h}
    ensures ByAge(s) ==> ByAge(InsertByAge(h, s))
  {
    if s == [] || h.age >= s[0].age {
      if ByAge(s) {
        ByAgeWithHead(h, s);
      }
    } else {
      InsertByAgeSorts(h, s[1..]);
      assert s == [s[0]] + s[1..];
      if ByAge(s) {
        assert ByAge(s[1..]);
        ByAgeWithHead(s[0], InsertByAge(h, s[1..]));
      }
    }
  }

  lemma {:induction false} OldestFirstSorts(s: seq<HoleInfo>)
    ensures multiset(OldestFirst(s)) == multiset(s) && ByAge(OldestFirst(s))
  {
    if s != [] {
      OldestFirstSorts(s[1..]);
      InsertByAgeSorts(s[0], OldestFirst(s[1..]));
      assert s == [s[0]] + s[1..];
    }
  }

  lemma DistinctIdsArePreserved(s: seq<HoleInfo>, t: seq<HoleInfo>)
    requires DistinctIds(s) && multiset(s) == multiset(t)
    ensures DistinctIds(t)
  {
    forall i, j | 0 <= i < j < |t|
      ensures t[i].id != t[j].id
    {
      assert t[i] in multiset(s) && t[j] in multiset(s);
      var a :| 0 <= a < |s| && s[a] == t[i];
      var b :| 0 <= b < |s| && s[b] == t[j];
      if a == b {
        TwiceInSequence(t, i, j);
        OnceInSequence(s, a);
      }
    }
  }

  lemma TwiceInSequence(t: seq<HoleInfo>, i: nat, j: nat)
    requires i < j < |t| && t[i] == t[j]
    ensures multiset(t)[t[i]] >= 2
  {
    assert t == t[..j] + t[j..] && t[..j][i] == t[i] && t[j..][0] == t[j];
    assert t[i] in multiset(t[..j]) && t[i] in multiset(t[j..]);
  }

  lemma OnceInSequence(s: seq<HoleInfo>, a: nat)
    requires DistinctIds(s) && a < |s|
    ensures multiset(s)[s[a]] == 1
  {
    assert s == s[..a] + ([s[a]] + s[a + 1..]);
    assert s[a] !in s[..a] && s[a] !in s[a + 1..];
  }

  lemma {:induction false} WorstIsWorst(s: seq<HoleInfo>)
    requires s != []
    ensures Worst(s) in s && forall h | h in s :: NoWorse(h, Worst(s))
  {
    var last := |s| - 1;
    assert s == s[..last] + [s[last]];
    if last > 0 {
      WorstIsWorst(s[..last]);
    }
  }

  // ---------------------------------------------------------------- what a plan guarantees

  datatype Reason = Refill | Replace | Expiry | Growth | Cull | Nothing

  function ReasonOf(holes: seq<HoleInfo>, sinceLastOpen: nat, policy: PoolPolicy): Reason {
    var active := |InWork(holes)|;
    var candidates := Filter(holes, h => MayCull(h, policy));
    if |Live(holes)| < policy.minActive then Refill
    else if BadlyLossy(holes, policy) != [] then Replace
    else if active > policy.minActive && Expired(holes) != [] then Expiry
    else if |holes| < policy.maxTotal && sinceLastOpen >= policy.addInterval then Growth
    else if active > policy.minActive && candidates != [] && WorstLoss(Worst(candidates)) > policy.cullLoss then Cull
    else Nothing
  }

  /** The holes a plan drains. */
  function Chosen(holes: seq<HoleInfo>, sinceLastOpen: nat, policy: PoolPolicy): seq<HoleInfo> {
    match ReasonOf(holes, sinceLastOpen, policy)
    case Replace => BadlyLossy(holes, policy)
    case Expiry =>
      OldestFirst(Expired(holes))[..Min(|InWork(holes)| - policy.minActive, |Expired(holes)|)]
    case Cull => [Worst(Filter(holes, h => MayCull(h, policy)))]
    case _ => []
  }

  /** A plan drains the chosen holes, and opens holes only to refill, to replace or to grow. */
  lemma PlanByReason(holes: seq<HoleInfo>, sinceLastOpen: nat, policy: PoolPolicy)
    ensures
      var plan, chosen := Plan(holes, sinceLastOpen, policy), Chosen(holes, sinceLastOpen, policy);
      && Retired(plan) == Ids(chosen)
      && CountOpens(plan) == match ReasonOf(holes, sinceLastOpen, policy)
                             case Refill => policy.minActive - |Live(holes)|
                             case Replace => |chosen|
                             case Growth => 1
                             case _ => 0
  {
    hide Filter, OldestFirst, Opens, Retires, Replacements, CountOpens, Retired, Worst,
         Live, InWork, BadlyLossy, Expired;
    var chosen := Chosen(holes, sinceLastOpen, policy);
    match ReasonOf(holes, sinceLastOpen, policy)
    case Refill => OpensAreOpens(policy.minActive - |Live(holes)|);
    case Replace => ReplacementsReplace(BadlyLossy(holes, policy));
    case Expiry => RetiresRetire(chosen);
    case Growth => OneAction(Open);
    case Cull =>
      OneAction(Retire(chosen[0].id));
      assert Ids(chosen) == [chosen[0].id];
    case Nothing => RetiresRetire([]); OpensAreOpens(0);
  }

  lemma SameMembers(s: seq<HoleInfo>, t: seq<HoleInfo>)
    requires multiset(s) == multiset(t)
    ensures forall h :: h in s <==> h in t
  {
    forall h
      ensures h in s <==> h in t
    {
      assert h in s <==> h in multiset(s);
      assert h in t <==> h in multiset(t);
    }
  }

  /** Whatever is not among the first `n` of a list sorted by age is no older than any of them. */
  lemma PrefixIsOldest(sorted: seq<HoleInfo>, n: nat, h: HoleInfo, e: HoleInfo)
    requires n <= |sorted| && ByAge(sorted) && h in sorted[..n] && e in sorted && e !in sorted[..n]
    ensures e.age <= h.age
  {
    var i :| 0 <= i < n && sorted[i] == h;
    var j :| 0 <= j < |sorted| && sorted[j] == e;
    assert j < n ==> sorted[..n][j] == e;
  }

  lemma OldestArePreferred(expired: seq<HoleInfo>, n: nat)
    requires n <= |expired| && DistinctIds(expired)
    ensures
      var taken := OldestFirst(expired)[..n];
      && DistinctIds(taken)
      && (forall h | h in taken :: h in expired)
      && (forall h, e | h in taken && e in expired && e !in taken :: e.age <= h.age)
  {
    hide OldestFirst, ByAge;
    var sorted := OldestFirst(expired);
    var taken := sorted[..n];
    OldestFirstSorts(expired);
    SameMembers(expired, sorted);
    DistinctIdsArePreserved(expired, sorted);
    forall h, e | h in taken && e in expired && e !in taken
      ensures e.age <= h.age
    {
      PrefixIsOldest(sorted, n, h, e);
    }
  }

  /** The chosen holes are distinct holes of the set that are not being drained. */
  lemma ChosenAreLive(holes: seq<HoleInfo>, sinceLastOpen: nat, policy: PoolPolicy)
    requires DistinctIds(holes)
    ensures DistinctIds(Chosen(holes, sinceLastOpen, policy))
    ensures forall h | h in Chosen(holes, sinceLastOpen, policy) :: h in holes && IsLive(h)
  {
    hide Filter, OldestFirst, Worst;
    match ReasonOf(holes, sinceLastOpen, policy)
    case Replace => FilterKeeps(holes, h => IsLive(h) && IsBadlyLossy(h, policy));
    case Expiry =>
      FilterKeeps(holes, h => IsLive(h) && h.age >= h.maxAge);
      OldestArePreferred(Expired(holes), Min(|InWork(holes)| - policy.minActive, |Expired(holes)|));
    case Cull =>
      FilterKeeps(holes, h => MayCull(h, policy));
      WorstIsWorst(Filter(holes, h => MayCull(h, policy)));
    case _ =>
  }

  lemma PlanRetiresDistinctLiveHoles(holes: seq<HoleInfo>, sinceLastOpen: nat, policy: PoolPolicy)
    requires DistinctIds(holes)
    ensures
      var retired := Retired(Plan(holes, sinceLastOpen, policy));
      && Distinct(retired)
      && forall id | id in retired :: exists h :: h in holes && IsLive(h) && h.id == id
  {
    hide Plan, Chosen, ReasonOf, Retired;
    PlanByReason(holes, sinceLastOpen, policy);
    ChosenAreLive(holes, sinceLastOpen, policy);
    var chosen := Chosen(holes, sinceLastOpen, policy);
    forall id | id in Ids(chosen)
      ensures exists h :: h in holes && IsLive(h) && h.id == id
    {
      var i :| 0 <= i < |chosen| && chosen[i].id == id;
      assert chosen[i] in chosen;
    }
  }

  lemma ActiveAreLive(holes: seq<HoleInfo>, policy: PoolPolicy)
    ensures |InWork(holes)| <= |Live(holes)| <= |holes|
    ensures |BadlyLossy(holes, policy)| <= |Live(holes)|
  {
    FilterIsMonotone(holes, (h: HoleInfo) => h.state == Active, h => IsLive(h));
    FilterIsMonotone(holes, h => IsLive(h) && IsBadlyLossy(h, policy), h => IsLive(h));
  }

  /**
   A plan never brings the live holes below the minimum, and - unless it replaces badly lossy ones -
   drains only what leaves the minimum of holes in work.
   */
  lemma PlanKeepsTheMinimum(holes: seq<HoleInfo>, sinceLastOpen: nat, policy: PoolPolicy)
    ensures
      var plan := Plan(holes, sinceLastOpen, policy);
      var retired, opens := |Retired(plan)|, CountOpens(plan);
      && |Live(holes)| + opens >= policy.minActive + retired
      && (retired > 0 && BadlyLossy(holes, policy) == [] ==> |InWork(holes)| >= policy.minActive + retired)
  {
    hide Filter, OldestFirst, Worst, Live, InWork, BadlyLossy, Expired, Plan, Retired, CountOpens;
    PlanByReason(holes, sinceLastOpen, policy);
    ActiveAreLive(holes, policy);
  }

  /** An open beyond the minimum replaces a drained hole one for one, or makes the set grow below its limit. */
  lemma PlanOpensWithinLimits(holes: seq<HoleInfo>, sinceLastOpen: nat, policy: PoolPolicy)
    requires |Live(holes)| >= policy.minActive && CountOpens(Plan(holes, sinceLastOpen, policy)) > 0
    ensures
      var plan := Plan(holes, sinceLastOpen, policy);
      || CountOpens(plan) == |Retired(plan)|
      || (CountOpens(plan) == 1 && Retired(plan) == []
          && |holes| < policy.maxTotal && sinceLastOpen >= policy.addInterval)
  {
    hide Filter, OldestFirst, Worst, Live, InWork, BadlyLossy, Expired, Plan, Retired, CountOpens;
    PlanByReason(holes, sinceLastOpen, policy);
  }

  /** A set below the minimum is refilled exactly to it, and nothing is drained meanwhile. */
  lemma PlanRefills(holes: seq<HoleInfo>, sinceLastOpen: nat, policy: PoolPolicy)
    requires |Live(holes)| < policy.minActive
    ensures
      var plan := Plan(holes, sinceLastOpen, policy);
      Retired(plan) == [] && |Live(holes)| + CountOpens(plan) == policy.minActive
  {
    hide Filter, OldestFirst, Worst, Live, InWork, BadlyLossy, Expired, Plan, Retired, CountOpens;
    PlanByReason(holes, sinceLastOpen, policy);
  }

  /** A share of losses is known and above `limit`. */
  predicate LossAbove(loss: Option<real>, limit: real) {
    loss.Some? && loss.value > limit
  }

  /** Not draining, old enough to judge, and losing more than the allowed share one way or the other. */
  predicate LosesTooMuch(h: HoleInfo, policy: PoolPolicy) {
    && h.state in {Warming, Active} && h.age >= policy.grace
    && (LossAbove(h.lossOut, policy.badLoss) || LossAbove(h.lossIn, policy.badLoss))
  }

  lemma BadlyLossyIs(holes: seq<HoleInfo>, policy: PoolPolicy)
    ensures forall h :: h in BadlyLossy(holes, policy) <==> h in holes && LosesTooMuch(h, policy)
    ensures BadlyLossy(holes, policy) != [] <==> exists h :: h in holes && LosesTooMuch(h, policy)
  {
    FilterKeeps(holes, h => IsLive(h) && IsBadlyLossy(h, policy));
    if BadlyLossy(holes, policy) != [] {
      assert BadlyLossy(holes, policy)[0] in BadlyLossy(holes, policy);
    }
  }

  lemma ReplacingPlan(holes: seq<HoleInfo>, sinceLastOpen: nat, policy: PoolPolicy)
    requires |Live(holes)| >= policy.minActive && BadlyLossy(holes, policy) != []
    ensures
      var plan := Plan(holes, sinceLastOpen, policy);
      |plan| % 2 == 0 && forall i | 0 <= i < |plan| / 2 :: plan[2 * i].Retire? && plan[2 * i + 1].Open?
  {
    hide Filter, OldestFirst, Worst, Live, InWork, BadlyLossy, Expired, Replacements;
    var bad := BadlyLossy(holes, policy);
    ReplacementsAlternate(bad, 0);
    forall i | 0 <= i < |bad|
      ensures Replacements(bad)[2 * i].Retire? && Replacements(bad)[2 * i + 1].Open?
    {
      ReplacementsAlternate(bad, i);
    }
  }

  /**
   With the minimum there, every hole that loses too much one way or the other is replaced at once, and nothing else
   happens.
   */
  lemma PlanReplacesEveryBadHole(holes: seq<HoleInfo>, sinceLastOpen: nat, policy: PoolPolicy, h: HoleInfo)
    requires |Live(holes)| >= policy.minActive && h in holes && LosesTooMuch(h, policy)
    ensures h.id in Retired(Plan(holes, sinceLastOpen, policy))
    ensures CountOpens(Plan(holes, sinceLastOpen, policy)) == |Retired(Plan(holes, sinceLastOpen, policy))|
    ensures
      var plan := Plan(holes, sinceLastOpen, policy);
      |plan| % 2 == 0 && forall i | 0 <= i < |plan| / 2 :: plan[2 * i].Retire? && plan[2 * i + 1].Open?
    ensures forall id | id in Retired(Plan(holes, sinceLastOpen, policy)) ::
              exists b :: b in holes && LosesTooMuch(b, policy) && b.id == id
  {
    hide Filter, OldestFirst, Worst, Live, InWork, BadlyLossy, Expired, Plan, Retired, CountOpens;
    PlanByReason(holes, sinceLastOpen, policy);
    BadlyLossyIs(holes, policy);
    var bad := BadlyLossy(holes, policy);
    assert h in bad;
    var i :| 0 <= i < |bad| && bad[i] == h;
    assert Ids(bad)[i] == h.id;
    ReplacingPlan(holes, sinceLastOpen, policy);
    forall id | id in Ids(bad)
      ensures exists b :: b in holes && LosesTooMuch(b, policy) && b.id == id
    {
      var j :| 0 <= j < |bad| && bad[j].id == id;
      assert bad[j] in bad;
    }
  }

  /**
   Of the expired holes the oldest go first, as many as the holes in work exceed the minimum; a hole
   that is not drained is no older than any that is.
   */
  lemma PlanDrainsTheOldest(holes: seq<HoleInfo>, sinceLastOpen: nat, policy: PoolPolicy)
    requires DistinctIds(holes)
    requires |Live(holes)| >= policy.minActive && BadlyLossy(holes, policy) == []
    requires |InWork(holes)| > policy.minActive && Expired(holes) != []
    ensures
      var retired := Retired(Plan(holes, sinceLastOpen, policy));
      && |retired| == Min(|InWork(holes)| - policy.minActive, |Expired(holes)|)
      && CountOpens(Plan(holes, sinceLastOpen, policy)) == 0
      && (forall id | id in retired :: exists h :: h in holes && IsLive(h) && h.age >= h.maxAge && h.id == id)
      && (forall h, e | h in holes && h.id in retired && e in holes && IsLive(e)
                          && e.age >= e.maxAge && e.id !in retired ::
            e.age <= h.age)
  {
    hide Filter, OldestFirst, Worst, Live, InWork, Plan, Retired, BadlyLossy, CountOpens;
    PlanByReason(holes, sinceLastOpen, policy);
    FilterKeeps(holes, h => IsLive(h) && h.age >= h.maxAge);
    var taken := Chosen(holes, sinceLastOpen, policy);
    OldestArePreferred(Expired(holes), Min(|InWork(holes)| - policy.minActive, |Expired(holes)|));
    forall id | id in Ids(taken)
      ensures exists h :: h in holes && IsLive(h) && h.age >= h.maxAge && h.id == id
    {
      var i :| 0 <= i < |taken| && taken[i].id == id;
      assert taken[i] in taken;
    }
    forall h, e | h in holes && h.id in Ids(taken) && e in holes && IsLive(e)
                    && e.age >= e.maxAge && e.id !in Ids(taken)
      ensures e.age <= h.age
    {
      assert e in Expired(holes);
      assert h in taken by {
        ById(holes, taken, h);
      }
      assert e !in taken by {
        NotById(taken, e);
      }
    }
  }

  lemma ById(holes: seq<HoleInfo>, taken: seq<HoleInfo>, h: HoleInfo)
    requires DistinctIds(holes) && (forall t | t in taken :: t in holes) && h in holes && h.id in Ids(taken)
    ensures h in taken
  {
    var i :| 0 <= i < |taken| && taken[i].id == h.id;
    assert taken[i] in holes;
  }

  lemma NotById(taken: seq<HoleInfo>, e: HoleInfo)
    requires e.id !in Ids(taken)
    ensures e !in taken
  {
    forall i | 0 <= i < |taken|
      ensures taken[i] != e
    {
      assert Ids(taken)[i] == taken[i].id;
    }
  }

  /** Nothing urgent: the minimum is there, no hole is badly lossy, and no expired one can be spared. */
  predicate NothingUrgent(holes: seq<HoleInfo>, policy: PoolPolicy) {
    && |Live(holes)| >= policy.minActive && BadlyLossy(holes, policy) == []
    && (|InWork(holes)| <= policy.minActive || Expired(holes) == [])
  }

  predicate MayGrow(holes: seq<HoleInfo>, sinceLastOpen: nat, policy: PoolPolicy) {
    |holes| < policy.maxTotal && sinceLastOpen >= policy.addInterval
  }

  /** When nothing is urgent, the set grows by one hole exactly if it is below its maximum and the interval is over. */
  lemma PlanGrows(holes: seq<HoleInfo>, sinceLastOpen: nat, policy: PoolPolicy)
    requires NothingUrgent(holes, policy)
    ensures CountOpens(Plan(holes, sinceLastOpen, policy)) == if MayGrow(holes, sinceLastOpen, policy) then 1 else 0
    ensures MayGrow(holes, sinceLastOpen, policy) ==> Retired(Plan(holes, sinceLastOpen, policy)) == []
  {
    hide Filter, OldestFirst, Worst, Live, InWork, BadlyLossy, Expired, Plan, Retired, CountOpens;
    PlanByReason(holes, sinceLastOpen, policy);
  }

  /** In work, old enough to judge, and with enough packets counted. */
  predicate CanBeJudged(h: HoleInfo, policy: PoolPolicy) {
    h.state == Active && h.age >= policy.grace && h.sample >= policy.cullMinSample
  }

  /** `h` loses the share `loss`: the larger of its two ways, an unknown one counting as none. */
  predicate Loses(h: HoleInfo, loss: real) {
    var out := if h.lossOut.Some? then h.lossOut.value else 0.0;
    var back := if h.lossIn.Some? then h.lossIn.value else 0.0;
    loss >= out && loss >= back && (loss == out || loss == back)
  }

  lemma WorstLossIs(h: HoleInfo, loss: real)
    ensures Loses(h, loss) <==> loss == WorstLoss(h)
  {
  }

  /** `h` can be judged, loses more than the policy minds, and no other is worse; of equals it is the oldest. */
  ghost predicate IsCulled(h: HoleInfo, holes: seq<HoleInfo>, policy: PoolPolicy, loss: real) {
    && h in holes && CanBeJudged(h, policy) && Loses(h, loss) && loss > policy.cullLoss
    && forall c, l | c in holes && CanBeJudged(c, policy) && Loses(c, l) :: l < loss || (l == loss && c.age <= h.age)
  }

  lemma CulledIs(h: HoleInfo, holes: seq<HoleInfo>, policy: PoolPolicy)
    requires h in holes && MayCull(h, policy) && WorstLoss(h) > policy.cullLoss
    requires forall c | c in holes && MayCull(c, policy) :: NoWorse(c, h)
    ensures IsCulled(h, holes, policy, WorstLoss(h))
  {
    WorstLossIs(h, WorstLoss(h));
    forall c, l | c in holes && CanBeJudged(c, policy) && Loses(c, l)
      ensures l < WorstLoss(h) || (l == WorstLoss(h) && c.age <= h.age)
    {
      WorstLossIs(c, l);
    }
  }

  /**
   When nothing is urgent and the set does not grow: a hole is culled exactly when more than the minimum are in work and
   some hole that can be judged loses more than the policy minds; it is a worst one of those, and the only one.
   */
  lemma PlanCullsTheWorst(holes: seq<HoleInfo>, sinceLastOpen: nat, policy: PoolPolicy)
    requires NothingUrgent(holes, policy) && !MayGrow(holes, sinceLastOpen, policy)
    ensures
      if |InWork(holes)| > policy.minActive
         && exists h, l :: h in holes && CanBeJudged(h, policy) && Loses(h, l) && l > policy.cullLoss
      then exists h, l :: IsCulled(h, holes, policy, l) && Retired(Plan(holes, sinceLastOpen, policy)) == [h.id]
      else Retired(Plan(holes, sinceLastOpen, policy)) == []
  {
    hide Filter, OldestFirst, Worst, Live, InWork, Plan, Retired, BadlyLossy, Expired, WorstLoss, Loses, IsCulled;
    PlanByReason(holes, sinceLastOpen, policy);
    FilterKeeps(holes, h => MayCull(h, policy));
    var candidates := Filter(holes, h => MayCull(h, policy));
    if candidates != [] {
      WorstIsWorst(candidates);
      var h := Worst(candidates);
      assert Ids([h]) == [h.id];
      assert h in holes && MayCull(h, policy);
      forall c | c in holes && MayCull(c, policy)
        ensures NoWorse(c, h)
      {
        assert c in candidates;
      }
      WorstLossIs(h, WorstLoss(h));
      if WorstLoss(h) > policy.cullLoss {
        CulledIs(h, holes, policy);
      }
      forall c, l | c in holes && CanBeJudged(c, policy) && Loses(c, l)
        ensures l <= WorstLoss(h)
      {
        WorstLossIs(c, l);
        assert MayCull(c, policy);
      }
    } else {
      forall h | h in holes
        ensures !CanBeJudged(h, policy)
      {
        assert h !in candidates;
      }
    }
  }

  // ---------------------------------------------------------------- what is counted

  lemma {:induction false} SizeOfMembers(s: seq<HoleInfo>)
    requires DistinctIds(s)
    ensures |set h | h in s| == |s|
  {
    if s != [] {
      var n := |s| - 1;
      assert s == s[..n] + [s[n]];
      SizeOfMembers(s[..n]);
      assert (set h | h in s) == (set h | h in s[..n]) + {s[n]};
    }
  }

  lemma FilterSize(holes: seq<HoleInfo>, keep: HoleInfo -> bool, kept: set<HoleInfo>)
    requires DistinctIds(holes) && forall h :: h in kept <==> h in holes && keep(h)
    ensures |Filter(holes, keep)| == |kept|
  {
    FilterKeeps(holes, keep);
    SizeOfMembers(Filter(holes, keep));
    assert kept == set h | h in Filter(holes, keep);
  }

  /** Live holes are those not draining, those in work the active ones; expired are the live ones past their age. */
  lemma WhatIsCounted(holes: seq<HoleInfo>)
    requires DistinctIds(holes)
    ensures |Live(holes)| == |set h | h in holes && h.state in {Warming, Active}|
    ensures |InWork(holes)| == |set h | h in holes && h.state == Active|
    ensures |Expired(holes)| == |set h | h in holes && h.state in {Warming, Active} && h.age >= h.maxAge|
  {
    hide Filter;
    FilterSize(holes, h => IsLive(h), set h | h in holes && h.state in {Warming, Active});
    FilterSize(holes, (h: HoleInfo) => h.state == Active, set h | h in holes && h.state == Active);
    FilterSize(holes, h => IsLive(h) && h.age >= h.maxAge,
               set h | h in holes && h.state in {Warming, Active} && h.age >= h.maxAge);
  }
}
