/**
 Routing of task types to scaling groups, and the validator that makes it unambiguous. The groups live in a map whose
 iteration order Go leaves open; every loop over it here takes the keys in an arbitrary order.
 */
module Routing {
  import opened Arithmetic

  datatype TaskType = Unspecified | WorkflowType | ActivityType | NexusType

  /** What routing and validation read of a group; the provider and algorithm names are either known or not. */
  datatype Group = Group(taskTypes: seq<TaskType>, regionIds: seq<string>, knownProvider: bool,
                         scalerKnown: Option<bool>)

  type Spec = map<string, Group>

  const SCALABLE: seq<TaskType> := [ActivityType, NexusType, WorkflowType]

  datatype SpecError =
    | NoEntry
    | EmptyKey
    | DuplicateRegion(key: string)
    | CatchAllConflict(key: string, other: string, region: string)
    | TaskTypeConflict(key: string, taskType: TaskType, region: string)
    | UndefinedTaskType(key: string)
    | UnknownProvider(key: string)
    | UnknownScaler(key: string)
    | UselessCatchAll(key: string)
    | UnequalRegions(first: string, second: string)

  // ----- Claims -----

  predicate IsCatchAll(g: Group) { g.taskTypes == [] }

  /** claimRank. */
  function ClaimRank(g: Group, t: TaskType, region: string): int {
    if g.regionIds != [] && region !in g.regionIds then -1
    else if g.taskTypes != [] && t !in g.taskTypes then -1
    else if g.taskTypes == [] && t !in SCALABLE then -1
    else if g.regionIds != [] && g.taskTypes != [] then 3
    else if g.regionIds != [] then 2
    else if g.taskTypes != [] then 1
    else 0
  }

  predicate Claims(g: Group, t: TaskType, region: string) { ClaimRank(g, t, region) >= 0 }

  /** k claims t in the region and nobody claims it with a higher rank. */
  ghost predicate IsTopClaimer(s: Spec, t: TaskType, region: string, k: string) {
    k in s && Claims(s[k], t, region) && forall j | j in s :: ClaimRank(s[j], t, region) <= ClaimRank(s[k], t, region)
  }

  ghost predicate IsServed(s: Spec, t: TaskType, region: string) {
    exists k :: k in s && Claims(s[k], t, region)
  }

  /** What a lookup returns, for some order of the groups. */
  ghost predicate MayFind(s: Spec, t: TaskType, region: string, key: string) {
    if IsServed(s, t, region) then IsTopClaimer(s, t, region, key) else key == ""
  }

  /** The group works in the region and takes the type: it lists it or, listing none, the type can be scaled. */
  predicate Serves(g: Group, t: TaskType, region: string) {
    && (g.regionIds == [] || region in g.regionIds)
    && (t in g.taskTypes || (g.taskTypes == [] && (t == ActivityType || t == NexusType || t == WorkflowType)))
  }

  lemma ClaimsMeansServes(g: Group, t: TaskType, region: string)
    ensures Claims(g, t, region) <==> Serves(g, t, region)
  {
  }

  /**
   What a lookup finds, from the groups' regions and types alone. It finds a serving group if there is one. A group that
   lists the region comes before one without regions; of two that do or of two that do not, one that lists the type
   comes before a catch-all.
   */
  lemma FoundByPrecedence(s: Spec, t: TaskType, region: string, key: string)
    requires MayFind(s, t, region, key)
    ensures (exists j :: j in s && Serves(s[j], t, region)) ==> key in s && Serves(s[key], t, region)
    ensures (forall j | j in s :: !Serves(s[j], t, region)) ==> key == ""
    ensures forall j | j in s && Serves(s[j], t, region) && s[j].regionIds != [] :: s[key].regionIds != []
    ensures forall j | j in s && Serves(s[j], t, region) && s[j].taskTypes != [] ::
              (s[j].regionIds == [] <==> s[key].regionIds == []) ==> s[key].taskTypes != []
  {
    forall j | j in s
      ensures Claims(s[j], t, region) <==> Serves(s[j], t, region)
    {
      ClaimsMeansServes(s[j], t, region);
    }
  }

  /** ScalingGroupKeyForTaskQueueType, for whatever order the groups come in. */
  method LookUp(s: Spec, t: TaskType, region: string) returns (key: string)
    ensures MayFind(s, t, region, key)
    ensures (exists j :: j in s && Serves(s[j], t, region)) ==> key in s && Serves(s[key], t, region)
    ensures (forall j | j in s :: !Serves(s[j], t, region)) ==> key == ""
    ensures forall j | j in s && Serves(s[j], t, region) && s[j].regionIds != [] :: s[key].regionIds != []
    ensures forall j | j in s && Serves(s[j], t, region) && s[j].taskTypes != [] ::
              (s[j].regionIds == [] <==> s[key].regionIds == []) ==> s[key].taskTypes != []
  {
    hide Serves;
    key := "";
    var rank := -1;
    var unvisited := s.Keys;
    while unvisited != {}
      invariant unvisited <= s.Keys
      invariant rank == -1 ==> key == ""
      invariant rank != -1 ==> rank >= 0 && key in s && rank == ClaimRank(s[key], t, region)
      invariant forall j | j in s && j !in unvisited :: ClaimRank(s[j], t, region) <= rank
      decreases unvisited
    {
      var k :| k in unvisited;
      unvisited := unvisited - {k};
      var r := ClaimRank(s[k], t, region);
      if r > rank {
        key, rank := k, r;
      }
    }
    FoundByPrecedence(s, t, region, key);
  }

  // ----- What makes a spec valid, without any order -----

  function RegionsOf(g: Group): seq<string> {
    if g.regionIds == [] then [""] else g.regionIds
  }

  predicate NoDuplicates<T(==)>(s: seq<T>) {
    forall i, j | 0 <= i < j < |s| :: s[i] != s[j]
  }

  /** What one group must satisfy on its own. */
  predicate GroupOk(k: string, g: Group) {
    && k != ""
    && NoDuplicates(g.regionIds)
    && NoDuplicates(g.taskTypes) && Unspecified !in g.taskTypes
    && g.knownProvider && g.scalerKnown != Some(false)
  }

  predicate Lists(g: Group, region: string, t: TaskType) { region in RegionsOf(g) && t in g.taskTypes }

  predicate CatchesAll(g: Group, region: string) { IsCatchAll(g) && region in RegionsOf(g) }

  /** Two groups clash in a region (no region being one of its own) when both list a type there or both catch all. */
  ghost predicate Conflict(g: Group, h: Group) {
    || (exists r, t :: Lists(g, r, t) && Lists(h, r, t))
    || (exists r :: CatchesAll(g, r) && CatchesAll(h, r))
  }

  ghost predicate UnambiguousOn(s: Spec, keys: set<string>)
    requires keys <= s.Keys
  {
    && (forall k | k in keys :: GroupOk(k, s[k]))
    && (forall j, k | j in keys && k in keys && j != k :: !Conflict(s[j], s[k]))
  }

  /** The conditions the lookup relies on. */
  ghost predicate Unambiguous(s: Spec) { UnambiguousOn(s, s.Keys) }

  ghost predicate Useful(s: Spec, k: string) {
    exists r, t :: k in s && r in RegionsOf(s[k]) && IsTopClaimer(s, t, r, k)
  }

  predicate IsListed(s: Spec, region: string) {
    exists k :: k in s && region in s[k].regionIds
  }

  ghost predicate SameTypesServed(s: Spec, q: string, r: string) {
    forall t | t in SCALABLE :: IsServed(s, t, q) <==> IsServed(s, t, r)
  }

  /** What the validator accepts, with no order of groups in it. */
  ghost predicate ValidSpec(s: Spec) {
    && s != map[]
    && Unambiguous(s)
    && (forall k | k in s && IsCatchAll(s[k]) :: Useful(s, k))
    && (forall q, r | IsListed(s, q) && IsListed(s, r) :: SameTypesServed(s, q, r))
  }

  /** At most one group claims a task type in a region with the highest rank. */
  lemma TopClaimerIsUnique(s: Spec, t: TaskType, region: string, j: string, k: string)
    requires Unambiguous(s) && IsTopClaimer(s, t, region, j) && IsTopClaimer(s, t, region, k)
    ensures j == k
  {
    var g, h := s[j], s[k];
    assert ClaimRank(g, t, region) == ClaimRank(h, t, region);
    var r := if g.regionIds != [] then region else "";
    assert if IsCatchAll(g) then CatchesAll(g, r) && CatchesAll(h, r) else Lists(g, r, t) && Lists(h, r, t);
    assert Conflict(g, h);
  }

  /** The group that serves t in the region, or "" if none: on unambiguous specs the one answer of every lookup. */
  ghost function Route(s: Spec, t: TaskType, region: string): (key: string)
    ensures MayFind(s, t, region, key)
  {
    if IsServed(s, t, region) then
      TopClaimerExists(s, t, region);
      var k :| IsTopClaimer(s, t, region, k);
      k
    else ""
  }

  lemma TopClaimerExists(s: Spec, t: TaskType, region: string)
    requires IsServed(s, t, region)
    ensures exists k :: IsTopClaimer(s, t, region, k)
  {
    var first :| first in s && Claims(s[first], t, region);
    ClimbToTop(s, t, region, first);
  }

  lemma {:induction false} ClimbToTop(s: Spec, t: TaskType, region: string, k: string)
    requires k in s && Claims(s[k], t, region)
    ensures exists top :: IsTopClaimer(s, t, region, top)
    decreases 3 - ClaimRank(s[k], t, region)
  {
    if j :| j in s && ClaimRank(s[j], t, region) > ClaimRank(s[k], t, region) {
      ClimbToTop(s, t, region, j);
    } else {
      assert IsTopClaimer(s, t, region, k);
    }
  }

  /** Any lookup on an unambiguous spec, in any order, gives Route; served types have a non-empty key. */
  lemma LookUpIsRoute(s: Spec, t: TaskType, region: string, key: string)
    requires Unambiguous(s)
    requires MayFind(s, t, region, key)
    ensures key == Route(s, t, region) && (key != "" <==> IsServed(s, t, region))
  {
    if IsServed(s, t, region) {
      TopClaimerIsUnique(s, t, region, key, Route(s, t, region));
      assert GroupOk(key, s[key]);
    }
  }

  // ----- Effective task types -----

  function Candidates(g: Group): seq<TaskType> {
    if g.taskTypes == [] then SCALABLE else g.taskTypes
  }

  ghost function RoutedTo(s: Spec, k: string, region: string, types: seq<TaskType>): seq<TaskType> {
    if types == [] then []
    else
      var n := |types| - 1;
      RoutedTo(s, k, region, types[..n]) + if Route(s, types[n], region) == k then [types[n]] else []
  }

  ghost function EffectiveTypes(s: Spec, k: string, region: string): seq<TaskType> {
    if k !in s then [] else RoutedTo(s, k, region, Candidates(s[k]))
  }

  /** k is a top claimer and the only one, so every lookup finds it. */
  ghost predicate IsSoleTopClaimer(s: Spec, t: TaskType, region: string, k: string) {
    IsTopClaimer(s, t, region, k) && forall j | IsTopClaimer(s, t, region, j) :: j == k
  }

  /** effective holds the candidates that a lookup surely finds for the group and only ones that it may find. */
  ghost predicate FitsLookups(s: Spec, k: string, region: string, candidates: seq<TaskType>, effective: seq<TaskType>) {
    && (forall t | t in effective :: t in candidates && MayFind(s, t, region, k))
    && (forall t | t in candidates && IsSoleTopClaimer(s, t, region, k) :: t in effective)
  }

  lemma FitsStep(s: Spec, k: string, region: string, candidates: seq<TaskType>, effective: seq<TaskType>, t: TaskType,
                 key: string)
    requires FitsLookups(s, k, region, candidates, effective) && MayFind(s, t, region, key)
    ensures FitsLookups(s, k, region, candidates + [t], effective + if key == k then [t] else [])
  {
    SoleTopClaimerIsFound(s, t, region, k, key);
    hide MayFind, IsSoleTopClaimer;
  }

  /**
   EffectiveTaskTypesForGroup, for any spec and order of the groups; on an unambiguous spec the result is determined.
   */
  method EffectiveTaskTypesForGroup(s: Spec, k: string, region: string) returns (effective: seq<TaskType>)
    ensures if k in s then FitsLookups(s, k, region, Candidates(s[k]), effective) else effective == []
    ensures Unambiguous(s) ==> effective == EffectiveTypes(s, k, region)
  {
    effective := [];
    if k !in s {
      return;
    }
    var candidates := s[k].taskTypes;
    if candidates == [] {
      candidates := SCALABLE;
    }
    assert FitsLookups(s, k, region, [], []);
    hide UnambiguousOn, IsServed, IsTopClaimer, MayFind, IsSoleTopClaimer, NoDuplicates, FitsLookups, Serves;
    for i := 0 to |candidates|
      invariant FitsLookups(s, k, region, candidates[..i], effective)
      invariant Unambiguous(s) ==> effective == RoutedTo(s, k, region, candidates[..i])
    {
      var t := candidates[i];
      assert candidates[..i + 1][..i] == candidates[..i] && candidates[..i + 1] == candidates[..i] + [t];
      var key := LookUp(s, t, region);
      if Unambiguous(s) {
        LookUpIsRoute(s, t, region, key);
      }
      FitsStep(s, k, region, candidates[..i], effective, t, key);
      if key == k {
        effective := effective + [t];
      } else {
        assert effective + [] == effective;
      }
    }
    assert candidates[..|candidates|] == candidates;
  }

  lemma SoleTopClaimerIsFound(s: Spec, t: TaskType, region: string, k: string, key: string)
    requires MayFind(s, t, region, key)
    ensures IsSoleTopClaimer(s, t, region, k) ==> key == k
  {
    if IsSoleTopClaimer(s, t, region, k) {
      assert k in s && Claims(s[k], t, region);
    }
  }

  lemma {:induction false} RoutedToMembers(s: Spec, k: string, region: string, types: seq<TaskType>, t: TaskType)
    ensures t in RoutedTo(s, k, region, types) <==> t in types && Route(s, t, region) == k
    decreases types
  {
    if types != [] {
      var n := |types| - 1;
      assert types == types[..n] + [types[n]];
      RoutedToMembers(s, k, region, types[..n], t);
    }
  }

  lemma {:induction false} RoutedToNoDuplicates(s: Spec, k: string, region: string, types: seq<TaskType>)
    requires NoDuplicates(types)
    ensures NoDuplicates(RoutedTo(s, k, region, types))
    decreases types
  {
    if types != [] {
      var n := |types| - 1;
      RoutedToNoDuplicates(s, k, region, types[..n]);
      RoutedToMembers(s, k, region, types[..n], types[n]);
    }
  }

  /**
   In any region the groups' effective task types are duplicate-free, disjoint and together the types served there.
   */
  lemma EffectiveTypesPartitionServed(s: Spec, region: string)
    requires Unambiguous(s)
    ensures forall k :: NoDuplicates(EffectiveTypes(s, k, region))
    ensures forall j, k, t | t in EffectiveTypes(s, j, region) && t in EffectiveTypes(s, k, region) :: j == k
    ensures forall t :: IsServed(s, t, region) <==> exists k :: t in EffectiveTypes(s, k, region)
    ensures forall t | IsServed(s, t, region) :: t in EffectiveTypes(s, Route(s, t, region), region)
  {
    forall k, t
      ensures t in EffectiveTypes(s, k, region) <==> IsServed(s, t, region) && Route(s, t, region) == k
    {
      EffectiveMembers(s, k, region, t);
    }
    forall j, k, t | t in EffectiveTypes(s, j, region) && t in EffectiveTypes(s, k, region)
      ensures j == k
    {
      EffectiveMembers(s, j, region, t);
      EffectiveMembers(s, k, region, t);
    }
    forall k
      ensures NoDuplicates(EffectiveTypes(s, k, region))
    {
      if k in s {
        assert GroupOk(k, s[k]);
        RoutedToNoDuplicates(s, k, region, Candidates(s[k]));
      }
    }
    forall t
      ensures IsServed(s, t, region) <==> exists k :: t in EffectiveTypes(s, k, region)
    {
      assert t in EffectiveTypes(s, Route(s, t, region), region) <==> IsServed(s, t, region);
    }
  }

  lemma EffectiveMembers(s: Spec, k: string, region: string, t: TaskType)
    requires Unambiguous(s)
    ensures t in EffectiveTypes(s, k, region) <==> IsServed(s, t, region) && Route(s, t, region) == k
  {
    if k in s {
      assert GroupOk(k, s[k]);
      RoutedToMembers(s, k, region, Candidates(s[k]), t);
    }
  }

  // ----- The validator -----

  /** The named groups or regions break the named rule. */
  ghost predicate Explains(e: SpecError, s: Spec) {
    match e
    case NoEntry => s == map[]
    case EmptyKey => "" in s
    case DuplicateRegion(k) => k in s && !NoDuplicates(s[k].regionIds)
    case CatchAllConflict(k, other, r) =>
      k in s && other in s && k != other && CatchesAll(s[k], r) && CatchesAll(s[other], r)
    case TaskTypeConflict(k, t, r) =>
      && k in s && Lists(s[k], r, t)
      && (!NoDuplicates(s[k].taskTypes) || exists j :: j in s && j != k && Lists(s[j], r, t))
    case UndefinedTaskType(k) => k in s && Unspecified in s[k].taskTypes
    case UnknownProvider(k) => k in s && !s[k].knownProvider
    case UnknownScaler(k) => k in s && s[k].scalerKnown == Some(false)
    case UselessCatchAll(k) => k in s && IsCatchAll(s[k]) && !Useful(s, k)
    case UnequalRegions(q, r) => IsLeastListed(s, q) && IsListed(s, r) && !SameTypesServed(s, q, r)
  }

  /** Errors about regions compare with the least listed one. */
  ghost predicate IsLeastListed(s: Spec, region: string) {
    IsListed(s, region) && forall r | IsListed(s, r) :: r == region || AtMost(region, r)
  }

  /** A reported error is never spurious. */
  lemma ExplainedIsInvalid(e: SpecError, s: Spec)
    requires Explains(e, s)
    ensures !ValidSpec(s)
  {
    match e
    case CatchAllConflict(k, other, r) => assert Conflict(s[k], s[other]);
    case TaskTypeConflict(k, t, r) =>
      if j :| j in s && j != k && Lists(s[j], r, t) {
        assert Conflict(s[k], s[j]);
      } else {
        assert !GroupOk(k, s[k]);
      }
    case _ =>
  }

  /** catchAlls maps every region that a catch-all among keys covers to that catch-all. */
  ghost predicate RecordsCatchAlls(s: Spec, keys: set<string>, catchAlls: map<string, string>) {
    && (forall r | r in catchAlls :: catchAlls[r] in keys && catchAlls[r] in s && CatchesAll(s[catchAlls[r]], r))
    && (forall k, r | k in keys && k in s && CatchesAll(s[k], r) :: r in catchAlls)
  }

  /** seen holds exactly what the groups in keys list. */
  ghost predicate RecordsTypes(s: Spec, keys: set<string>, seen: set<(string, TaskType)>) {
    && (forall r, t | (r, t) in seen :: exists k :: k in keys && k in s && Lists(s[k], r, t))
    && (forall k, r, t | k in keys && k in s && Lists(s[k], r, t) :: (r, t) in seen)
  }

  method RecordCatchAll(k: string, g: Group, catchAlls: map<string, string>)
    returns (error: Option<SpecError>, updated: map<string, string>)
    requires IsCatchAll(g) && NoDuplicates(g.regionIds)
    ensures error.Some? ==>
        exists r :: r in RegionsOf(g) && r in catchAlls && error.value == CatchAllConflict(k, catchAlls[r], r)
    ensures error.None? ==> forall r | r in RegionsOf(g) :: r !in catchAlls
    ensures error.None? ==> forall r :: r in updated <==> r in catchAlls || r in RegionsOf(g)
    ensures error.None? ==> forall r | r in updated :: updated[r] == if r in catchAlls then catchAlls[r] else k
  {
    var regions := RegionsOf(g);
    updated := catchAlls;
    for i := 0 to |regions|
      invariant forall j | 0 <= j < i :: regions[j] !in catchAlls
      invariant forall r :: r in updated <==> r in catchAlls || r in regions[..i]
      invariant forall r | r in updated :: updated[r] == if r in catchAlls then catchAlls[r] else k
    {
      var r := regions[i];
      assert r !in regions[..i];
      if r in updated {
        return Some(CatchAllConflict(k, updated[r], r)), updated;
      }
      updated := updated[r := k];
    }
    error := None;
  }

  method RecordTypes(k: string, g: Group, seen: set<(string, TaskType)>)
    returns (error: Option<SpecError>, updated: set<(string, TaskType)>)
    ensures error.Some? ==>
      || (error.value == UndefinedTaskType(k) && Unspecified in g.taskTypes)
      || exists r, t :: Lists(g, r, t) && error.value == TaskTypeConflict(k, t, r)
          && (!NoDuplicates(g.taskTypes) || (r, t) in seen)
    ensures error.None? ==> NoDuplicates(g.taskTypes) && Unspecified !in g.taskTypes
    ensures error.None? ==> forall r, t | Lists(g, r, t) :: (r, t) !in seen
    ensures error.None? ==> updated == seen + set r, t | r in RegionsOf(g) && t in g.taskTypes :: (r, t)
  {
    var regions := RegionsOf(g);
    updated := seen;
    for i := 0 to |g.taskTypes|
      invariant NoDuplicates(g.taskTypes[..i]) && Unspecified !in g.taskTypes[..i]
      invariant forall r, t | r in regions && t in g.taskTypes[..i] :: (r, t) !in seen
      invariant updated == seen + set r, t | r in regions && t in g.taskTypes[..i] :: (r, t)
    {
      var t := g.taskTypes[i];
      assert g.taskTypes[..i + 1] == g.taskTypes[..i] + [t];
      for j := 0 to |regions|
        invariant forall l | 0 <= l < j :: (regions[l], t) !in updated
      {
        if (regions[j], t) in updated {
          assert Lists(g, regions[j], t);
          return Some(TaskTypeConflict(k, t, regions[j])), updated;
        }
      }
      assert (regions[0], t) !in updated;
      if t == Unspecified {
        return Some(UndefinedTaskType(k)), updated;
      }
      updated := updated + set r | r in regions :: (r, t);
    }
    assert g.taskTypes[..|g.taskTypes|] == g.taskTypes;
    error := None;
  }

  method HasDuplicate(s: seq<string>) returns (duplicate: bool)
    ensures duplicate <==> !NoDuplicates(s)
  {
    for i := 0 to |s|
      invariant NoDuplicates(s[..i])
    {
      if s[i] in s[..i] {
        return true;
      }
    }
    assert s[..|s|] == s;
    duplicate := false;
  }

  /** One group that passes every check keeps the visited groups unambiguous. */
  lemma ExtendUnambiguous(s: Spec, keys: set<string>, k: string, catchAlls: map<string, string>,
                          seen: set<(string, TaskType)>)
    requires keys <= s.Keys && k in s && k !in keys && UnambiguousOn(s, keys) && GroupOk(k, s[k])
    requires RecordsCatchAlls(s, keys, catchAlls) && RecordsTypes(s, keys, seen)
    requires forall r | CatchesAll(s[k], r) :: r !in catchAlls
    requires forall r, t | Lists(s[k], r, t) :: (r, t) !in seen
    ensures UnambiguousOn(s, keys + {k})
  {
    forall j | j in keys
      ensures !Conflict(s[j], s[k]) && !Conflict(s[k], s[j])
    {
    }
  }

  /** The two maps record the group that has just passed its checks. */
  lemma ExtendRecords(s: Spec, keys: set<string>, k: string, catchAlls: map<string, string>,
                      seen: set<(string, TaskType)>,
                      catchAlls': map<string, string>, seen': set<(string, TaskType)>)
    requires k in s && RecordsCatchAlls(s, keys, catchAlls) && RecordsTypes(s, keys, seen)
    requires forall r :: r in catchAlls' <==> r in catchAlls || CatchesAll(s[k], r)
    requires forall r | r in catchAlls' :: catchAlls'[r] == if r in catchAlls then catchAlls[r] else k
    requires seen' == seen + set r, t | r in RegionsOf(s[k]) && t in s[k].taskTypes :: (r, t)
    ensures RecordsCatchAlls(s, keys + {k}, catchAlls') && RecordsTypes(s, keys + {k}, seen')
  {
    hide RegionsOf;
  }

  /** A clash found through the maps is one between two groups, or within one. */
  lemma ErrorIsExplained(s: Spec, keys: set<string>, k: string, catchAlls: map<string, string>,
                         seen: set<(string, TaskType)>)
    requires k in s && k !in keys && RecordsCatchAlls(s, keys, catchAlls) && RecordsTypes(s, keys, seen)
    ensures forall r | r in catchAlls && CatchesAll(s[k], r) :: Explains(CatchAllConflict(k, catchAlls[r], r), s)
    ensures forall r, t | (r, t) in seen && Lists(s[k], r, t) :: Explains(TaskTypeConflict(k, t, r), s)
  {
  }

  lemma NothingRecorded(s: Spec)
    ensures UnambiguousOn(s, {}) && RecordsCatchAlls(s, {}, map[]) && RecordsTypes(s, {}, {})
  {
  }

  /** The first loop of Validate: each group's own fields, and uniqueness per region through the two maps. */
  method CheckGroups(s: Spec) returns (error: Option<SpecError>)
    ensures error.None? ==> Unambiguous(s)
    ensures error.Some? ==> Explains(error.value, s)
  {
    var seen: set<(string, TaskType)> := {};
    var catchAlls: map<string, string> := map[];
    var unvisited := s.Keys;
    NothingRecorded(s);
    hide UnambiguousOn, RecordsCatchAlls, RecordsTypes, RegionsOf, NoDuplicates;
    assert s.Keys - unvisited == {};
    while unvisited != {}
      invariant unvisited <= s.Keys
      invariant UnambiguousOn(s, s.Keys - unvisited)
      invariant RecordsCatchAlls(s, s.Keys - unvisited, catchAlls)
      invariant RecordsTypes(s, s.Keys - unvisited, seen)
      decreases unvisited
    {
      var k :| k in unvisited;
      var g := s[k];
      ghost var visited := s.Keys - unvisited;
      ErrorIsExplained(s, visited, k, catchAlls, seen);
      if |k| == 0 {
        return Some(EmptyKey);
      }
      var duplicate := HasDuplicate(g.regionIds);
      if duplicate {
        return Some(DuplicateRegion(k));
      }
      var catchAlls' := catchAlls;
      if IsCatchAll(g) {
        error, catchAlls' := RecordCatchAll(k, g, catchAlls);
        if error.Some? {
          return;
        }
      }
      var seen';
      error, seen' := RecordTypes(k, g, seen);
      if error.Some? {
        return;
      }
      if !g.knownProvider {
        return Some(UnknownProvider(k));
      }
      if g.scalerKnown == Some(false) {
        return Some(UnknownScaler(k));
      }
      ExtendUnambiguous(s, visited, k, catchAlls, seen);
      ExtendRecords(s, visited, k, catchAlls, seen, catchAlls', seen');
      catchAlls, seen := catchAlls', seen';
      unvisited := unvisited - {k};
      assert s.Keys - unvisited == visited + {k};
    }
    assert s.Keys - unvisited == s.Keys;
    error := None;
  }

  /** A group's effective task types are those it is the top claimer of. */
  lemma EffectiveAreTopClaims(s: Spec, k: string, region: string)
    requires Unambiguous(s)
    ensures forall t :: t in EffectiveTypes(s, k, region) <==> IsTopClaimer(s, t, region, k)
  {
    forall t
      ensures t in EffectiveTypes(s, k, region) <==> IsTopClaimer(s, t, region, k)
    {
      EffectiveMembers(s, k, region, t);
      if IsTopClaimer(s, t, region, k) {
        TopClaimerIsUnique(s, t, region, k, Route(s, t, region));
      }
    }
  }

  method ServesSomewhere(s: Spec, k: string) returns (useful: bool)
    requires Unambiguous(s) && k in s
    ensures useful <==> Useful(s, k)
  {
    hide UnambiguousOn, EffectiveTypes, IsTopClaimer;
    var regions := RegionsOf(s[k]);
    for i := 0 to |regions|
      invariant forall j, t | 0 <= j < i :: !IsTopClaimer(s, t, regions[j], k)
    {
      var effective := EffectiveTaskTypesForGroup(s, k, regions[i]);
      EffectiveAreTopClaims(s, k, regions[i]);
      if effective != [] {
        assert effective[0] in EffectiveTypes(s, k, regions[i]);
        return true;
      }
    }
    useful := false;
  }

  /** The second loop: every catch-all serves some type in one of its regions. */
  method CheckCatchAlls(s: Spec) returns (error: Option<SpecError>)
    requires Unambiguous(s)
    ensures error.None? ==> forall k | k in s && IsCatchAll(s[k]) :: Useful(s, k)
    ensures error.Some? ==> Explains(error.value, s)
  {
    hide UnambiguousOn, Useful;
    var unvisited := s.Keys;
    while unvisited != {}
      invariant unvisited <= s.Keys
      invariant forall k | k in s && k !in unvisited && IsCatchAll(s[k]) :: Useful(s, k)
      decreases unvisited
    {
      var k :| k in unvisited;
      unvisited := unvisited - {k};
      if IsCatchAll(s[k]) {
        var useful := ServesSomewhere(s, k);
        if !useful {
          return Some(UselessCatchAll(k));
        }
      }
    }
    error := None;
  }

  /** Go's order of strings, on characters. */
  predicate AtMost(a: string, b: string) {
    a == [] || (b != [] && (a[0] < b[0] || (a[0] == b[0] && AtMost(a[1..], b[1..]))))
  }

  lemma {:induction false} AtMostIsTotal(a: string, b: string)
    ensures AtMost(a, b) || AtMost(b, a)
  {
    if a != [] && b != [] {
      AtMostIsTotal(a[1..], b[1..]);
    }
  }

  lemma {:induction false} AtMostIsTransitive(a: string, b: string, c: string)
    requires AtMost(a, b) && AtMost(b, c)
    ensures AtMost(a, c)
  {
    if a != [] && a[0] == b[0] == c[0] {
      AtMostIsTransitive(a[1..], b[1..], c[1..]);
    }
  }

  predicate IsSorted(s: seq<string>) {
    forall i, j | 0 <= i < j < |s| :: AtMost(s[i], s[j])
  }

  /** Puts one more string into a sorted list. */
  method InsertSorted(s: seq<string>, x: string) returns (r: seq<string>)
    requires IsSorted(s) && NoDuplicates(s) && x !in s
    ensures IsSorted(r) && NoDuplicates(r) && forall y :: y in r <==> y in s || y == x
  {
    var i := 0;
    while i < |s| && AtMost(s[i], x)
      invariant i <= |s| && forall j | 0 <= j < i :: AtMost(s[j], x)
    {
      i := i + 1;
    }
    r := s[..i] + [x] + s[i..];
    if i < |s| {
      AtMostIsTotal(s[i], x);
    }
    forall j | i <= j < |s|
      ensures AtMost(x, s[j])
    {
      if i < j {
        AtMostIsTransitive(x, s[i], s[j]);
      }
    }
    assert forall j | 0 <= j < |r| :: r[j] == if j < i then s[j] else if j == i then x else s[j - 1];
  }

  method Sort(s: seq<string>) returns (r: seq<string>)
    requires NoDuplicates(s)
    ensures IsSorted(r) && NoDuplicates(r) && forall y :: y in r <==> y in s
  {
    hide AtMost, IsSorted;
    r := [];
    EmptyIsSorted();
    for i := 0 to |s|
      invariant IsSorted(r) && NoDuplicates(r) && forall y :: y in r <==> y in s[..i]
    {
      assert s[..i + 1] == s[..i] + [s[i]];
      r := InsertSorted(r, s[i]);
    }
    assert s[..|s|] == s;
  }

  lemma EmptyIsSorted()
    ensures IsSorted([])
  {
  }

  /** listedRegionIds: every listed region once, in order. */
  method ListedRegionIds(s: Spec) returns (regions: seq<string>)
    ensures forall r :: r in regions <==> IsListed(s, r)
    ensures NoDuplicates(regions) && IsSorted(regions)
  {
    regions := [];
    var unvisited := s.Keys;
    while unvisited != {}
      invariant unvisited <= s.Keys && NoDuplicates(regions)
      invariant forall r :: r in regions <==> exists k :: k in s && k !in unvisited && r in s[k].regionIds
      decreases unvisited
    {
      var k :| k in unvisited;
      ghost var before := regions;
      for i := 0 to |s[k].regionIds|
        invariant NoDuplicates(regions)
        invariant forall r :: r in regions <==> r in before || r in s[k].regionIds[..i]
      {
        if s[k].regionIds[i] !in regions {
          regions := regions + [s[k].regionIds[i]];
        }
      }
      assert s[k].regionIds[..|s[k].regionIds|] == s[k].regionIds;
      unvisited := unvisited - {k};
    }
    regions := Sort(regions);
  }

  /** taskTypesServedInRegion: the scalable types served there, in their fixed order. */
  method TaskTypesServedInRegion(s: Spec, region: string) returns (served: seq<TaskType>)
    requires Unambiguous(s)
    ensures served == ServedAmong(s, region, SCALABLE)
  {
    served := [];
    for i := 0 to |SCALABLE|
      invariant served == ServedAmong(s, region, SCALABLE[..i])
    {
      var t := SCALABLE[i];
      assert SCALABLE[..i + 1][..i] == SCALABLE[..i];
      var key := LookUp(s, t, region);
      LookUpIsRoute(s, t, region, key);
      if key != "" {
        served := served + [t];
      }
    }
    assert SCALABLE[..|SCALABLE|] == SCALABLE;
  }

  ghost function ServedAmong(s: Spec, region: string, types: seq<TaskType>): seq<TaskType> {
    if types == [] then []
    else
      var n := |types| - 1;
      ServedAmong(s, region, types[..n]) + if IsServed(s, types[n], region) then [types[n]] else []
  }

  lemma {:induction false} ServedMembers(s: Spec, region: string, types: seq<TaskType>, t: TaskType)
    ensures t in ServedAmong(s, region, types) <==> t in types && IsServed(s, t, region)
  {
    if types != [] {
      var n := |types| - 1;
      assert types == types[..n] + [types[n]];
      ServedMembers(s, region, types[..n], t);
    }
  }

  lemma {:induction false} SameServedSameList(s: Spec, q: string, r: string, types: seq<TaskType>)
    requires forall t | t in types :: IsServed(s, t, q) <==> IsServed(s, t, r)
    ensures ServedAmong(s, q, types) == ServedAmong(s, r, types)
  {
    if types != [] {
      SameServedSameList(s, q, r, types[..|types| - 1]);
    }
  }

  /** Comparing the two lists compares the two sets of served types. */
  lemma ServedListsAgree(s: Spec, q: string, r: string)
    ensures ServedAmong(s, q, SCALABLE) == ServedAmong(s, r, SCALABLE) <==> SameTypesServed(s, q, r)
  {
    if SameTypesServed(s, q, r) {
      SameServedSameList(s, q, r, SCALABLE);
    } else {
      var t :| t in SCALABLE && !(IsServed(s, t, q) <==> IsServed(s, t, r));
      ServedMembers(s, q, SCALABLE, t);
      ServedMembers(s, r, SCALABLE, t);
    }
  }

  /** The closing check: every listed region serves the types that the first one serves. */
  method CheckRegions(s: Spec) returns (error: Option<SpecError>)
    requires Unambiguous(s)
    ensures error.None? ==> forall q, r | IsListed(s, q) && IsListed(s, r) :: SameTypesServed(s, q, r)
    ensures error.Some? ==> Explains(error.value, s)
  {
    hide UnambiguousOn, ServedAmong, IsServed;
    error := None;
    var regions := ListedRegionIds(s);
    if |regions| > 1 {
      var first := TaskTypesServedInRegion(s, regions[0]);
      assert IsLeastListed(s, regions[0]);
      for i := 1 to |regions|
        invariant forall j | 0 <= j < i :: SameTypesServed(s, regions[0], regions[j])
      {
        var served := TaskTypesServedInRegion(s, regions[i]);
        ServedListsAgree(s, regions[0], regions[i]);
        if served != first {
          return Some(UnequalRegions(regions[0], regions[i]));
        }
      }
    }
    forall q, r | IsListed(s, q) && IsListed(s, r)
      ensures SameTypesServed(s, q, r)
    {
      assert q in regions && r in regions;
      assert SameTypesServed(s, regions[0], q) && SameTypesServed(s, regions[0], r);
    }
  }

  /** Validate: it accepts exactly the valid specs, in whatever order the groups come, and its errors are true. */
  method Validate(s: Spec) returns (error: Option<SpecError>)
    ensures error.None? <==> ValidSpec(s)
    ensures error.Some? ==> Explains(error.value, s)
  {
    if |s| == 0 {
      return Some(NoEntry);
    }
    error := CheckGroups(s);
    if error.None? {
      error := CheckCatchAlls(s);
    }
    if error.None? {
      error := CheckRegions(s);
    }
    if error.Some? {
      ExplainedIsInvalid(error.value, s);
    }
  }

  /** Failing over to a listed region, from anywhere, leaves no served task type without a group. */
  lemma FailoverKeepsService(s: Spec, t: TaskType, from: string, target: string)
    requires ValidSpec(s) && IsServed(s, t, from) && IsListed(s, target)
    ensures IsServed(s, t, target) && Route(s, t, target) in s
  {
    var k :| k in s && Claims(s[k], t, from);
    assert GroupOk(k, s[k]);
    assert t in SCALABLE;
    if IsListed(s, from) {
      assert SameTypesServed(s, from, target);
    } else {
      assert s[k].regionIds == [];
      assert Claims(s[k], t, target);
    }
  }
}
