/** The achievement catalog and the rule engine that decides which achievement, if any, unlocks next. */
module Achievements {
  import opened Types

  /** Cumulative play statistics of the session. */
  datatype Stats = Stats(problemsSolved: nat, questsCompleted: nat)

  /** The statistic a rule compares with its threshold. */
  datatype Counter = ProblemsSolved | QuestsCompleted

  /** One entry of the priority table: the achievement it unlocks and the threshold on one counter. */
  datatype Rule = Rule(id: string, counter: Counter, threshold: nat)

  /** The condition of a rule, evaluated against the statistics. */
  predicate Holds(rule: Rule, stats: Stats) {
    match rule.counter
    case ProblemsSolved => stats.problemsSolved >= rule.threshold
    case QuestsCompleted => stats.questsCompleted >= rule.threshold
  }

  /** Once a condition holds, it keeps holding as the counters grow. */
  lemma HoldsMonotone(rule: Rule, before: Stats, after: Stats)
    requires before.problemsSolved <= after.problemsSolved && before.questsCompleted <= after.questsCompleted
    ensures Holds(rule, before) ==> Holds(rule, after)
  {
  }

  predicate DistinctIds(list: seq<Achievement>) {
    forall i, j :: 0 <= i < j < |list| ==> list[i].id != list[j].id
  }

  /** The fixed catalog the session starts from: five achievements, all locked. */
  function AllAchievements(): (catalog: seq<Achievement>)
    ensures |catalog| == 5
    ensures DistinctIds(catalog)
    ensures forall i :: 0 <= i < |catalog| ==> !catalog[i].unlocked
  {
    [ Achievement("first_step", "First Steps", "Solve your first puzzle.", false, "\U{1F3AF}"),
      Achievement("arithmancer_apprentice", "Arithmancer's Apprentice", "Solve 5 puzzles correctly.", false, "\U{1F9EE}"),
      Achievement("master_multiplier", "Master Multiplier", "Solve 15 puzzles correctly.", false, "\U{2728}"),
      Achievement("quest_complete", "Quest Complete", "Finish an entire adventure.", false, "\U{1F3C6}"),
      Achievement("seasoned_explorer", "Seasoned Explorer", "Complete 3 adventures.", false, "\U{1F5FA}\U{FE0F}") ]
  }

  /** The priority table, highest priority first. Every threshold needs at least one event. */
  function CheckList(): (rules: seq<Rule>)
    ensures |rules| == 5
    ensures forall k :: 0 <= k < |rules| ==> rules[k].threshold >= 1
  {
    [ Rule("first_step", ProblemsSolved, 1),
      Rule("arithmancer_apprentice", ProblemsSolved, 5),
      Rule("master_multiplier", ProblemsSolved, 15),
      Rule("quest_complete", QuestsCompleted, 1),
      Rule("seasoned_explorer", QuestsCompleted, 3) ]
  }

  /** The table has one rule per catalog entry, in catalog order, and within each counter the
      thresholds rise with the position in the table. */
  lemma CheckListShape()
    ensures |CheckList()| == |AllAchievements()|
    ensures forall k :: 0 <= k < |CheckList()| ==> CheckList()[k].id == AllAchievements()[k].id
    ensures forall j, k :: 0 <= j < k < |CheckList()| && CheckList()[j].counter == CheckList()[k].counter
                           ==> CheckList()[j].threshold < CheckList()[k].threshold
    ensures forall k :: 0 <= k < |CheckList()| ==> CheckList()[k].threshold >= 1
  {
  }

  /** The conditions of the five rules, in priority order, for any statistics. */
  lemma RuleConditions(stats: Stats)
    ensures |CheckList()| == 5
    ensures Holds(CheckList()[0], stats) <==> stats.problemsSolved >= 1
    ensures Holds(CheckList()[1], stats) <==> stats.problemsSolved >= 5
    ensures Holds(CheckList()[2], stats) <==> stats.problemsSolved >= 15
    ensures Holds(CheckList()[3], stats) <==> stats.questsCompleted >= 1
    ensures Holds(CheckList()[4], stats) <==> stats.questsCompleted >= 3
  {
  }

  /** The position of the first entry of `list` whose id is `id`, if any. */
  function FirstIndexOf(list: seq<Achievement>, id: string): (r: Option<nat>)
    ensures r.Some? ==> r.value < |list| && list[r.value].id == id
                        && forall j :: 0 <= j < r.value ==> list[j].id != id
    ensures r.None? ==> forall j :: 0 <= j < |list| ==> list[j].id != id
  {
    if list == [] then None
    else if list[0].id == id then Some(0)
    else match FirstIndexOf(list[1..], id)
      case None => None
      case Some(i) => Some(i + 1)
  }

  /** The first entry of `list` whose id is `id`, as the list search of the engine finds it. */
  function Find(list: seq<Achievement>, id: string): (r: Option<Achievement>)
    ensures r.Some? ==> r.value.id == id && r.value in list
    ensures r.None? <==> forall j :: 0 <= j < |list| ==> list[j].id != id
  {
    match FirstIndexOf(list, id)
    case None => None
    case Some(i) => Some(list[i])
  }

  /** The search returns the first entry with the id, whatever comes after it. */
  lemma FindFirst(list: seq<Achievement>, i: nat)
    requires i < |list|
    requires forall j :: 0 <= j < i ==> list[j].id != list[i].id
    ensures Find(list, list[i].id) == Some(list[i])
  {
    var k := FirstIndexOf(list, list[i].id);
    assert k.Some?;
  }

  lemma FindInDistinct(list: seq<Achievement>, i: nat)
    requires DistinctIds(list) && i < |list|
    ensures Find(list, list[i].id) == Some(list[i])
  {
    FindFirst(list, i);
  }

  /** A rule is eligible when its achievement is present in `current` (first occurrence), still
      locked, and its condition holds. */
  predicate Fires(rule: Rule, stats: Stats, current: seq<Achievement>) {
    match Find(current, rule.id)
    case None => false
    case Some(a) => !a.unlocked && Holds(rule, stats)
  }

  /** An eligible rule has its condition true and a locked entry with its id in the list; and a
      rule whose condition is true, whose id occurs, and all of whose entries are locked, is
      eligible. */
  lemma FiresMeans(rule: Rule, stats: Stats, current: seq<Achievement>)
    ensures Fires(rule, stats, current) ==>
              Holds(rule, stats) && exists i :: 0 <= i < |current| && current[i].id == rule.id && !current[i].unlocked
    ensures Holds(rule, stats) && (exists i :: 0 <= i < |current| && current[i].id == rule.id)
            && (forall i :: 0 <= i < |current| && current[i].id == rule.id ==> !current[i].unlocked)
            ==> Fires(rule, stats, current)
  {
    var found := Find(current, rule.id);
    if found.Some? {
      var i :| 0 <= i < |current| && current[i] == found.value;
    }
  }

  /** The search of the engine over a suffix of the table: the unlocked copy of the achievement of
      the first eligible rule, or nothing when no rule is eligible. */
  function CheckFrom(rules: seq<Rule>, stats: Stats, current: seq<Achievement>): (r: Option<Achievement>)
    ensures r.None? <==> forall k :: 0 <= k < |rules| ==> !Fires(rules[k], stats, current)
    ensures r.Some? ==> exists k :: 0 <= k < |rules| && rules[k].id == r.value.id && Fires(rules[k], stats, current)
    ensures r.Some? ==> r.value.unlocked && Find(current, r.value.id) == Some(r.value.(unlocked := false))
  {
    if rules == [] then None
    else
      var found := Find(current, rules[0].id);
      if found.Some? && !found.value.unlocked && Holds(rules[0], stats) then
        Some(found.value.(unlocked := true))
      else
        var r := CheckFrom(rules[1..], stats, current);
        assert forall k :: 1 <= k < |rules| ==> rules[k] == rules[1..][k - 1];
        assert !Fires(rules[0], stats, current);
        r
  }

  /** The rule engine: the unlocked copy of the first achievement, in table order, that is present,
      locked and whose threshold is met; nothing otherwise. */
  function CheckAchievements(stats: Stats, current: seq<Achievement>): (r: Option<Achievement>)
    ensures r.Some? ==> r.value.unlocked && Find(current, r.value.id) == Some(r.value.(unlocked := false))
    ensures r.Some? ==> exists k :: 0 <= k < |CheckList()| && CheckList()[k].id == r.value.id
                                    && Holds(CheckList()[k], stats)
    ensures r.None? <==> forall k :: 0 <= k < |CheckList()| ==> !Fires(CheckList()[k], stats, current)
  {
    CheckFrom(CheckList(), stats, current)
  }

  /** The ids of the table are pairwise distinct. */
  lemma RuleIdsDistinct()
    ensures forall j, k :: 0 <= j < k < |CheckList()| ==> CheckList()[j].id != CheckList()[k].id
  {
    CheckListShape();
  }

  /** Among rules some of which are eligible, the first eligible one. */
  lemma {:induction false} FirstFiring(rules: seq<Rule>, stats: Stats, current: seq<Achievement>, some: nat)
    returns (k: nat)
    requires some < |rules| && Fires(rules[some], stats, current)
    ensures k <= some && Fires(rules[k], stats, current)
    ensures forall j :: 0 <= j < k ==> !Fires(rules[j], stats, current)
  {
    if Fires(rules[0], stats, current) {
      k := 0;
    } else {
      assert rules[some] == rules[1..][some - 1];
      var k' := FirstFiring(rules[1..], stats, current, some - 1);
      k := k' + 1;
      assert forall j :: 1 <= j < k ==> rules[j] == rules[1..][j - 1];
    }
  }

  /** Priority: when the engine returns the achievement of rule `k`, that rule is eligible and no
      earlier rule is. */
  lemma Priority(stats: Stats, current: seq<Achievement>, k: nat)
    requires k < |CheckList()|
    requires CheckAchievements(stats, current).Some?
    requires CheckAchievements(stats, current).value.id == CheckList()[k].id
    ensures Fires(CheckList()[k], stats, current)
    ensures forall j :: 0 <= j < k ==> !Fires(CheckList()[j], stats, current)
  {
    var rules := CheckList();
    var r := CheckAchievements(stats, current);
    var some :| 0 <= some < |rules| && rules[some].id == r.value.id && Fires(rules[some], stats, current);
    var first := FirstFiring(rules, stats, current, some);
    FirstEligibleWins(stats, current, first);
    assert r.value.id == rules[first].id;
    RuleIdsDistinct();
    assert first == k;
  }

  /** The search over a suffix of the table returns the achievement of its first eligible rule. */
  lemma {:induction false} FirstEligibleWinsFrom(rules: seq<Rule>, stats: Stats, current: seq<Achievement>, k: nat)
    requires k < |rules|
    requires Fires(rules[k], stats, current)
    requires forall j :: 0 <= j < k ==> !Fires(rules[j], stats, current)
    ensures CheckFrom(rules, stats, current) == Some(Find(current, rules[k].id).value.(unlocked := true))
  {
    if k > 0 {
      assert !Fires(rules[0], stats, current);
      assert forall j :: 0 <= j < k - 1 ==> rules[1..][j] == rules[j + 1];
      FirstEligibleWinsFrom(rules[1..], stats, current, k - 1);
    }
  }

  /** Completeness: when some rule is eligible, the engine returns an achievement, and it is the one
      of the first eligible rule. */
  lemma FirstEligibleWins(stats: Stats, current: seq<Achievement>, k: nat)
    requires k < |CheckList()|
    requires Fires(CheckList()[k], stats, current)
    requires forall j :: 0 <= j < k ==> !Fires(CheckList()[j], stats, current)
    ensures CheckAchievements(stats, current) == Some(Find(current, CheckList()[k].id).value.(unlocked := true))
  {
    FirstEligibleWinsFrom(CheckList(), stats, current, k);
  }

  /** An achievement that is already unlocked is never returned again, whatever the statistics. */
  lemma UnlockedNeverReturned(stats: Stats, current: seq<Achievement>, id: string)
    requires Find(current, id).Some? && Find(current, id).value.unlocked
    ensures CheckAchievements(stats, current).Some? ==> CheckAchievements(stats, current).value.id != id
  {
  }

  /** Every id of `rest` is the id of some entry of `first`. */
  predicate IdsOccurIn(rest: seq<Achievement>, first: seq<Achievement>) {
    forall y :: 0 <= y < |rest| ==> exists x :: 0 <= x < |first| && first[x].id == rest[y].id
  }

  /** Only the first entry with a given id is consulted: appending entries whose ids already occur
      does not change the result. */
  lemma LaterDuplicatesIgnored(stats: Stats, first: seq<Achievement>, rest: seq<Achievement>)
    requires IdsOccurIn(rest, first)
    ensures CheckAchievements(stats, first + rest) == CheckAchievements(stats, first)
  {
    var rules := CheckList();
    forall k | 0 <= k < |rules|
      ensures Find(first + rest, rules[k].id) == Find(first, rules[k].id)
    {
      FindAppend(first, rest, rules[k].id);
    }
    CheckFromDependsOnFind(rules, stats, first + rest, first);
  }

  lemma {:induction false} FirstIndexOfAppend(first: seq<Achievement>, rest: seq<Achievement>, id: string)
    requires FirstIndexOf(first, id).Some?
    ensures FirstIndexOf(first + rest, id) == FirstIndexOf(first, id)
  {
    if first[0].id != id {
      assert (first + rest)[1..] == first[1..] + rest;
      FirstIndexOfAppend(first[1..], rest, id);
    }
  }

  lemma FindAppend(first: seq<Achievement>, rest: seq<Achievement>, id: string)
    requires IdsOccurIn(rest, first)
    ensures Find(first + rest, id) == Find(first, id)
  {
    if FirstIndexOf(first, id).Some? {
      FirstIndexOfAppend(first, rest, id);
    } else {
      forall j | 0 <= j < |first + rest|
        ensures (first + rest)[j].id != id
      {
        if j >= |first| {
          var x :| 0 <= x < |first| && first[x].id == rest[j - |first|].id;
        }
      }
    }
  }

  /** The engine sees `current` only through the first entry of each rule id. */
  lemma {:induction false} CheckFromDependsOnFind(rules: seq<Rule>, stats: Stats, a: seq<Achievement>, b: seq<Achievement>)
    requires forall k :: 0 <= k < |rules| ==> Find(a, rules[k].id) == Find(b, rules[k].id)
    ensures CheckFrom(rules, stats, a) == CheckFrom(rules, stats, b)
  {
    if rules != [] {
      assert forall k :: 1 <= k < |rules| ==> rules[k] == rules[1..][k - 1];
      CheckFromDependsOnFind(rules[1..], stats, a, b);
    }
  }

  // Concrete scenarios against the catalog.

  /** Any number of solved puzzles against the locked catalog unlocks `first_step` first. */
  lemma SolvedOnCatalog(stats: Stats)
    requires stats.problemsSolved >= 1
    ensures CheckAchievements(stats, AllAchievements()) == Some(AllAchievements()[0].(unlocked := true))
  {
    var cat := AllAchievements();
    CheckListShape();
    FindInDistinct(cat, 0);
    FirstEligibleWins(stats, cat, 0);
  }

  /** Fifteen solved puzzles against the locked catalog unlock `first_step`, not `master_multiplier`. */
  lemma FifteenSolvedUnlocksFirstStep()
    ensures CheckAchievements(Stats(15, 0), AllAchievements()) == Some(AllAchievements()[0].(unlocked := true))
  {
    SolvedOnCatalog(Stats(15, 0));
  }

  /** Three quests and no puzzles unlock `quest_complete`, not `seasoned_explorer`. */
  lemma ThreeQuestsUnlocksQuestComplete()
    ensures CheckAchievements(Stats(0, 3), AllAchievements()) == Some(AllAchievements()[3].(unlocked := true))
  {
    var cat := AllAchievements();
    CheckListShape();
    FindInDistinct(cat, 3);
    FirstEligibleWins(Stats(0, 3), cat, 3);
  }

  /** With `first_step` unlocked, five solved puzzles unlock `arithmancer_apprentice`. */
  lemma FiveSolvedAfterFirstStep()
    ensures CheckAchievements(Stats(5, 0), AllAchievements()[0 := AllAchievements()[0].(unlocked := true)])
            == Some(AllAchievements()[1].(unlocked := true))
  {
    var cat := AllAchievements();
    var list := cat[0 := cat[0].(unlocked := true)];
    CheckListShape();
    assert DistinctIds(list) by {
      assert forall i :: 0 <= i < |list| ==> list[i].id == cat[i].id;
    }
    FindInDistinct(list, 0);
    FindInDistinct(list, 1);
    FirstEligibleWins(Stats(5, 0), list, 1);
  }

  /** Statistics with both counters at zero unlock nothing, whatever the list. */
  lemma NothingAtZero(stats: Stats, current: seq<Achievement>)
    requires stats.problemsSolved == 0 && stats.questsCompleted == 0
    ensures CheckAchievements(stats, current).None?
  {
    CheckListShape();
    var rules := CheckList();
    forall k | 0 <= k < |rules|
      ensures !Fires(rules[k], stats, current)
    {
      assert !Holds(rules[k], stats);
    }
  }

  /** With no puzzle solved, the catalog unlocks `quest_complete` exactly when a quest was completed. */
  lemma ZeroSolvedOnCatalog(stats: Stats)
    requires stats.problemsSolved == 0
    ensures stats.questsCompleted == 0 ==> CheckAchievements(stats, AllAchievements()).None?
    ensures stats.questsCompleted >= 1 ==> CheckAchievements(stats, AllAchievements()) == Some(AllAchievements()[3].(unlocked := true))
  {
    var cat := AllAchievements();
    if stats.questsCompleted == 0 {
      NothingAtZero(stats, cat);
    } else {
      CheckListShape();
      FindInDistinct(cat, 3);
      FirstEligibleWins(stats, cat, 3);
    }
  }

  /** `first_step` unlocks whenever a puzzle was solved and its entry is present and locked,
      however large the counters are. */
  lemma FirstStepWhenLocked(stats: Stats, current: seq<Achievement>)
    requires stats.problemsSolved >= 1
    requires Find(current, "first_step").Some? && !Find(current, "first_step").value.unlocked
    ensures CheckAchievements(stats, current) == Some(Find(current, "first_step").value.(unlocked := true))
  {
    FirstEligibleWins(stats, current, 0);
  }

  /** A list in which every entry is unlocked unlocks nothing. */
  lemma NothingWhenAllUnlocked(stats: Stats, current: seq<Achievement>)
    requires forall i :: 0 <= i < |current| ==> current[i].unlocked
    ensures CheckAchievements(stats, current).None?
  {
    var rules := CheckList();
    forall k | 0 <= k < |rules|
      ensures !Fires(rules[k], stats, current)
    {
    }
  }

  /** A list whose ids match no rule unlocks nothing. */
  lemma NothingWhenIdsUnknown(stats: Stats, current: seq<Achievement>)
    requires forall i, k :: 0 <= i < |current| && 0 <= k < |CheckList()| ==> current[i].id != CheckList()[k].id
    ensures CheckAchievements(stats, current).None?
  {
    var rules := CheckList();
    forall k | 0 <= k < |rules|
      ensures !Fires(rules[k], stats, current)
    {
      assert Find(current, rules[k].id).None?;
    }
  }

  /** Thresholds are nested: the achievement of a rule is returned only once every earlier rule on
      the same counter has its achievement absent or unlocked. So `seasoned_explorer` never comes
      before `quest_complete`, nor `master_multiplier` before `arithmancer_apprentice`. */
  lemma EarlierThresholdsDone(stats: Stats, current: seq<Achievement>, k: nat, j: nat)
    requires j < k < |CheckList()|
    requires CheckList()[j].counter == CheckList()[k].counter
    requires CheckAchievements(stats, current).Some?
    requires CheckAchievements(stats, current).value.id == CheckList()[k].id
    ensures Find(current, CheckList()[j].id).None? || Find(current, CheckList()[j].id).value.unlocked
  {
    Priority(stats, current, k);
    CheckListShape();
    assert Holds(CheckList()[j], stats);
    assert !Fires(CheckList()[j], stats, current);
  }

  // Merging a result back into the list.

  /** The list after marking as unlocked every entry whose id is `id`; all other entries are kept. */
  function Merge(list: seq<Achievement>, id: string): (r: seq<Achievement>)
    ensures |r| == |list|
    ensures forall i :: 0 <= i < |list| && list[i].id != id ==> r[i] == list[i]
    ensures forall i :: 0 <= i < |list| && list[i].id == id ==> r[i] == list[i].(unlocked := true)
  {
    seq(|list|, i requires 0 <= i < |list| => if list[i].id == id then list[i].(unlocked := true) else list[i])
  }

  /** The number of unlocked entries of a list. */
  function UnlockedCount(list: seq<Achievement>): nat {
    if list == [] then 0 else (if list[0].unlocked then 1 else 0) + UnlockedCount(list[1..])
  }

  /** A list transition that keeps every entry's identity and metadata, never locks an unlocked
      entry, and unlocks at most one. */
  predicate AtMostOneNewUnlock(before: seq<Achievement>, after: seq<Achievement>) {
    && |after| == |before|
    && (forall i :: 0 <= i < |before| ==> after[i].(unlocked := before[i].unlocked) == before[i])
    && (forall i :: 0 <= i < |before| && before[i].unlocked ==> after[i].unlocked)
    && UnlockedCount(after) <= UnlockedCount(before) + 1
  }

  lemma {:induction false} UnlockedCountUpdate(list: seq<Achievement>, i: nat, a: Achievement)
    requires i < |list|
    ensures UnlockedCount(list[i := a]) + (if list[i].unlocked then 1 else 0)
            == UnlockedCount(list) + (if a.unlocked then 1 else 0)
  {
    if i > 0 {
      assert list[i := a][1..] == list[1..][i - 1 := a];
      UnlockedCountUpdate(list[1..], i - 1, a);
    } else {
      assert list[i := a][1..] == list[1..];
    }
  }

  /** Merging into a list with distinct ids unlocks at most one entry, and exactly one when the
      entry with that id was locked. */
  lemma MergeUnlocksAtMostOne(list: seq<Achievement>, id: string)
    requires DistinctIds(list)
    ensures AtMostOneNewUnlock(list, Merge(list, id))
    ensures forall i :: 0 <= i < |list| && list[i].id == id && !list[i].unlocked
                        ==> UnlockedCount(Merge(list, id)) == UnlockedCount(list) + 1
  {
    var merged := Merge(list, id);
    match FirstIndexOf(list, id)
    case None =>
      assert merged == list;
    case Some(i) =>
      assert merged == list[i := list[i].(unlocked := true)];
      UnlockedCountUpdate(list, i, list[i].(unlocked := true));
  }

  /** Idempotence: after merging a result, the same statistics never return that achievement again. */
  lemma NeverSameIdTwice(stats: Stats, current: seq<Achievement>)
    requires CheckAchievements(stats, current).Some?
    ensures var id := CheckAchievements(stats, current).value.id;
            var again := CheckAchievements(stats, Merge(current, id));
            again.Some? ==> again.value.id != id
  {
    var id := CheckAchievements(stats, current).value.id;
    var merged := Merge(current, id);
    var i :| 0 <= i < |current| && current[i] == Find(current, id).value;
    assert merged[i].id == id;
    var i' :| 0 <= i' < |merged| && merged[i'] == Find(merged, id).value;
    assert Find(merged, id).value.unlocked;
    UnlockedNeverReturned(stats, merged, id);
  }

  /** The shape of a list of the session: the catalog with only the unlocked flags changed. */
  predicate CatalogShaped(list: seq<Achievement>) {
    && |list| == |AllAchievements()|
    && forall i :: 0 <= i < |list| ==> AllAchievements()[i].(unlocked := list[i].unlocked) == list[i]
  }

  lemma CatalogShapedDistinct(list: seq<Achievement>)
    requires CatalogShaped(list)
    ensures DistinctIds(list)
  {
    var cat := AllAchievements();
    forall i, j | 0 <= i < j < |list|
      ensures list[i].id != list[j].id
    {
      assert list[i].id == cat[i].id && list[j].id == cat[j].id;
    }
  }

  /** Merging by any id keeps the catalog shape. */
  lemma MergeKeepsCatalogShape(list: seq<Achievement>, id: string)
    requires CatalogShaped(list)
    ensures CatalogShaped(Merge(list, id))
  {
    var merged := Merge(list, id);
    forall i | 0 <= i < |merged|
      ensures AllAchievements()[i].(unlocked := merged[i].unlocked) == merged[i]
    {
      assert merged[i].(unlocked := list[i].unlocked) == list[i];
    }
  }

  /** What one qualifying event does to the list: evaluate the engine and merge its result by id.
      The list keeps the catalog shape, locks nothing, unlocks exactly one entry, and the returned
      achievement is the merged entry. */
  lemma EvaluateAndMerge(stats: Stats, list: seq<Achievement>)
    requires CatalogShaped(list)
    ensures var r := CheckAchievements(stats, list);
            r.Some? ==> && CatalogShaped(Merge(list, r.value.id))
                        && AtMostOneNewUnlock(list, Merge(list, r.value.id))
                        && UnlockedCount(Merge(list, r.value.id)) == UnlockedCount(list) + 1
                        && r.value in Merge(list, r.value.id)
  {
    var r := CheckAchievements(stats, list);
    if r.Some? {
      var id := r.value.id;
      CatalogShapedDistinct(list);
      MergeUnlocksAtMostOne(list, id);
      MergeKeepsCatalogShape(list, id);
      var merged := Merge(list, id);
      var i :| 0 <= i < |list| && list[i] == r.value.(unlocked := false);
      assert merged[i] == r.value;
    }
  }
}
