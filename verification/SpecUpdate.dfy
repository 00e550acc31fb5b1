/**
 Building an updated spec from upserts with field masks and from removals. Scaling specs are heap objects, as the Go
 pointers are, so that "the current spec is left alone" is a fact about what BuildUpdatedSpec may write. Payloads are
 never written in place and are values here.
 */
module SpecUpdate {
  import opened Arithmetic
  import Routing

  class ScalingSpec {
    var algorithm: string
    var config: Option<string>

    constructor (algorithm: string, config: Option<string>)
      ensures this.algorithm == algorithm && this.config == config
    {
      this.algorithm := algorithm;
      this.config := config;
    }
  }

  datatype Compute = Compute(providerType: string, config: Option<string>, nexusEndpoint: string)

  datatype Group = Group(taskTypes: seq<Routing.TaskType>, regionIds: seq<string>, compute: Compute,
                         scaling: ScalingSpec?)

  datatype Update = Update(spec: Group, mask: seq<string>)

  type Groups = map<string, Group>

  /** What a group says, whichever object holds its scaling spec. */
  datatype Scaling = Scaling(algorithm: string, config: Option<string>)

  datatype GroupView = GroupView(
    taskTypes: seq<Routing.TaskType>, regionIds: seq<string>, compute: Compute, scaling: Option<Scaling>)

  datatype UpdateView = UpdateView(spec: GroupView, mask: seq<string>)

  function ScalingView(s: ScalingSpec?): Option<Scaling>
    reads s
  {
    if s == null then None else Some(Scaling(s.algorithm, s.config))
  }

  function ViewOf(g: Group): GroupView
    reads g.scaling
  {
    GroupView(g.taskTypes, g.regionIds, g.compute, ScalingView(g.scaling))
  }

  ghost function Objects(groups: Groups): set<ScalingSpec> {
    set k | k in groups && groups[k].scaling != null :: groups[k].scaling
  }

  ghost function ViewAll(groups: Groups): map<string, GroupView>
    reads Objects(groups)
  {
    map k | k in groups :: ViewOf(groups[k])
  }

  ghost function UpdateObjects(updates: map<string, Update>): set<ScalingSpec> {
    set k | k in updates && updates[k].spec.scaling != null :: updates[k].spec.scaling
  }

  ghost function ViewUpdates(updates: map<string, Update>): map<string, UpdateView>
    reads UpdateObjects(updates)
  {
    map k | k in updates :: UpdateView(ViewOf(updates[k].spec), updates[k].mask)
  }

  // ----- Field masks -----

  datatype Path =
    | TaskQueueTypes | RegionIds
    | Provider | ProviderType | ProviderDetails | ProviderNexusEndpoint
    | Scaler | ScalerType | ScalerDetails
    | Unsupported(path: string)

  function Parse(path: string): Path {
    if path == "task_queue_types" then TaskQueueTypes
    else if path == "region_ids" then RegionIds
    else if path == "provider" then Provider
    else if path == "provider.type" then ProviderType
    else if path == "provider.details" then ProviderDetails
    else if path == "provider.nexus_endpoint" then ProviderNexusEndpoint
    else if path == "scaler" then Scaler
    else if path == "scaler.type" then ScalerType
    else if path == "scaler.details" then ScalerDetails
    else Unsupported(path)
  }

  function PathsOf(mask: seq<string>): set<Path> {
    set p | p in mask :: Parse(p)
  }

  datatype MaskError = UnsupportedPath(path: string) | ScalerNotProvided(path: string)

  predicate IsBad(p: Path, src: GroupView) {
    p.Unsupported? || (p in {ScalerType, ScalerDetails} && src.scaling.None?)
  }

  predicate MaskFails(src: GroupView, paths: set<Path>) {
    exists p :: p in paths && IsBad(p, src)
  }

  /** The error names the first bad path of the mask. */
  predicate ErrorFits(e: MaskError, src: GroupView, mask: seq<string>) {
    && (exists i :: 0 <= i < |mask| && mask[i] == e.path && !MaskFails(src, PathsOf(mask[..i])))
    && IsBad(Parse(e.path), src) && (e.UnsupportedPath? <==> Parse(e.path).Unsupported?)
  }

  /**
   What applying a mask gives, from the mere set of its paths: per field, the source's value if some path covers it.
   */
  function Masked(dst: GroupView, src: GroupView, paths: set<Path>): GroupView {
    var all := Provider in paths;
    GroupView(
      if TaskQueueTypes in paths then src.taskTypes else dst.taskTypes,
      if RegionIds in paths then src.regionIds else dst.regionIds,
      Compute(
        if all || ProviderType in paths then src.compute.providerType else dst.compute.providerType,
        if all || ProviderDetails in paths then src.compute.config else dst.compute.config,
        if all || ProviderNexusEndpoint in paths then src.compute.nexusEndpoint else dst.compute.nexusEndpoint),
      MaskedScaling(dst.scaling, src.scaling, paths))
  }

  function MaskedScaling(dst: Option<Scaling>, src: Option<Scaling>, paths: set<Path>): Option<Scaling> {
    if Scaler in paths then src
    else if src.None? || !(ScalerType in paths || ScalerDetails in paths) then dst
    else
      var base := if dst.Some? then dst.value else Scaling("", None);
      Some(Scaling(
        if ScalerType in paths then src.value.algorithm else base.algorithm,
        if ScalerDetails in paths then src.value.config else base.config))
  }

  /** Masks compose as sets: applying one after the other is applying both at once, so order and repetition are moot. */
  lemma MasksCompose(dst: GroupView, src: GroupView, first: set<Path>, second: set<Path>)
    ensures Masked(Masked(dst, src, first), src, second) == Masked(dst, src, first + second)
    ensures MaskFails(src, first + second) <==> MaskFails(src, first) || MaskFails(src, second)
  {
    if p :| p in first + second && IsBad(p, src) {
      assert p in first || p in second;
    }
    if p :| p in first && IsBad(p, src) {
      assert p in first + second;
    }
    if p :| p in second && IsBad(p, src) {
      assert p in first + second;
    }
  }

  /** A mask over every field turns the group into the source; an empty one keeps it. */
  lemma MaskExtremes(dst: GroupView, src: GroupView, paths: set<Path>)
    ensures {TaskQueueTypes, RegionIds, Provider, Scaler} <= paths ==> Masked(dst, src, paths) == src
    ensures Masked(dst, src, {}) == dst && !MaskFails(src, {})
  {
    if {TaskQueueTypes, RegionIds, Provider, Scaler} <= paths {
      assert TaskQueueTypes in paths && RegionIds in paths && Provider in paths && Scaler in paths;
    }
  }

  // ----- Field masks by their strings -----

  /** The mask names this path or a field that holds it. */
  predicate Covers(mask: seq<string>, whole: string, part: string) { whole in mask || part in mask }

  /** Every field of r comes from the source if the mask covers it, and from the destination if not. */
  predicate TakesCovered(r: GroupView, dst: GroupView, src: GroupView, mask: seq<string>) {
    && r.taskTypes == (if "task_queue_types" in mask then src.taskTypes else dst.taskTypes)
    && r.regionIds == (if "region_ids" in mask then src.regionIds else dst.regionIds)
    && r.compute.providerType == (if Covers(mask, "provider", "provider.type") then src.compute.providerType
                                  else dst.compute.providerType)
    && r.compute.config == (if Covers(mask, "provider", "provider.details") then src.compute.config
                            else dst.compute.config)
    && r.compute.nexusEndpoint == (if Covers(mask, "provider", "provider.nexus_endpoint") then src.compute.nexusEndpoint
                                   else dst.compute.nexusEndpoint)
    && (r.scaling.Some? <==>
          if "scaler" in mask then src.scaling.Some?
          else dst.scaling.Some? || "scaler.type" in mask || "scaler.details" in mask)
    && (r.scaling.Some? ==> TakesCoveredScaling(r.scaling.value, dst.scaling, src.scaling, mask))
  }

  /** A scaling spec that only a part of is given starts out empty. */
  predicate TakesCoveredScaling(r: Scaling, dst: Option<Scaling>, src: Option<Scaling>, mask: seq<string>) {
    && (Covers(mask, "scaler", "scaler.type") ==> src.Some? && r.algorithm == src.value.algorithm)
    && (!Covers(mask, "scaler", "scaler.type") ==> r.algorithm == if dst.Some? then dst.value.algorithm else "")
    && (Covers(mask, "scaler", "scaler.details") ==> src.Some? && r.config == src.value.config)
    && (!Covers(mask, "scaler", "scaler.details") ==> r.config == if dst.Some? then dst.value.config else None)
  }

  /** A path that no field has, or that is about a part of a scaling spec that the source lacks. */
  predicate CannotApply(path: string, src: GroupView) {
    || path !in ["task_queue_types", "region_ids", "provider", "provider.type", "provider.details",
                 "provider.nexus_endpoint", "scaler", "scaler.type", "scaler.details"]
    || ((path == "scaler.type" || path == "scaler.details") && src.scaling.None?)
  }

  predicate IsNameOf(name: string, path: Path) {
    match path
    case TaskQueueTypes => name == "task_queue_types"
    case RegionIds => name == "region_ids"
    case Provider => name == "provider"
    case ProviderType => name == "provider.type"
    case ProviderDetails => name == "provider.details"
    case ProviderNexusEndpoint => name == "provider.nexus_endpoint"
    case Scaler => name == "scaler"
    case ScalerType => name == "scaler.type"
    case ScalerDetails => name == "scaler.details"
    case Unsupported(_) => false
  }

  lemma ParseMeans(name: string, path: Path)
    requires !path.Unsupported?
    ensures Parse(name) == path <==> IsNameOf(name, path)
  {
  }

  lemma MaskNames(mask: seq<string>)
    ensures TaskQueueTypes in PathsOf(mask) <==> "task_queue_types" in mask
    ensures RegionIds in PathsOf(mask) <==> "region_ids" in mask
    ensures Provider in PathsOf(mask) <==> "provider" in mask
    ensures ProviderType in PathsOf(mask) <==> "provider.type" in mask
    ensures ProviderDetails in PathsOf(mask) <==> "provider.details" in mask
    ensures ProviderNexusEndpoint in PathsOf(mask) <==> "provider.nexus_endpoint" in mask
    ensures Scaler in PathsOf(mask) <==> "scaler" in mask
    ensures ScalerType in PathsOf(mask) <==> "scaler.type" in mask
    ensures ScalerDetails in PathsOf(mask) <==> "scaler.details" in mask
  {
    hide Parse;
    NamesPath(mask, "task_queue_types", TaskQueueTypes);
    NamesPath(mask, "region_ids", RegionIds);
    NamesPath(mask, "provider", Provider);
    NamesPath(mask, "provider.type", ProviderType);
    NamesPath(mask, "provider.details", ProviderDetails);
    NamesPath(mask, "provider.nexus_endpoint", ProviderNexusEndpoint);
    NamesPath(mask, "scaler", Scaler);
    NamesPath(mask, "scaler.type", ScalerType);
    NamesPath(mask, "scaler.details", ScalerDetails);
  }

  lemma NamesPath(mask: seq<string>, name: string, path: Path)
    requires !path.Unsupported? && IsNameOf(name, path)
    ensures path in PathsOf(mask) <==> name in mask
  {
    hide Parse;
    ParseMeans(name, path);
    forall p | p in mask
      ensures Parse(p) == path <==> p == name
    {
      ParseMeans(p, path);
    }
  }

  lemma CannotApplyMeans(path: string, src: GroupView)
    ensures IsBad(Parse(path), src) <==> CannotApply(path, src)
    ensures src.scaling.Some? ==> (Parse(path).Unsupported? <==> CannotApply(path, src))
  {
  }

  lemma ScalerPartsNeedSource(mask: seq<string>, src: GroupView)
    requires forall path | path in mask :: !CannotApply(path, src)
    ensures "scaler.type" in mask || "scaler.details" in mask ==> src.scaling.Some?
  {
    assert "scaler.type" in mask ==> !CannotApply("scaler.type", src);
    assert "scaler.details" in mask ==> !CannotApply("scaler.details", src);
  }

  /**
   What a mask does, from its strings: it fails exactly for a path that cannot be applied, and otherwise takes from the
   source exactly the fields that some path covers.
   */
  lemma MaskByStrings(dst: GroupView, src: GroupView, mask: seq<string>)
    ensures MaskFails(src, PathsOf(mask)) <==> exists path :: path in mask && CannotApply(path, src)
    ensures !MaskFails(src, PathsOf(mask)) ==> TakesCovered(Masked(dst, src, PathsOf(mask)), dst, src, mask)
  {
    hide Parse, IsBad, CannotApply;
    forall path
      ensures IsBad(Parse(path), src) <==> CannotApply(path, src)
    {
      CannotApplyMeans(path, src);
    }
    if path :| path in mask && CannotApply(path, src) {
      assert Parse(path) in PathsOf(mask);
    } else {
      MaskNames(mask);
      ScalerPartsNeedSource(mask, src);
    }
  }

  function OwnScaling(g: Group): set<ScalingSpec> {
    if g.scaling == null then {} else {g.scaling}
  }

  method CloneScaling(s: ScalingSpec?) returns (cloned: ScalingSpec?)
    ensures cloned == null || fresh(cloned)
    ensures ScalingView(cloned) == ScalingView(s)
  {
    if s == null {
      return null;
    }
    cloned := new ScalingSpec(s.algorithm, s.config);
  }

  /** Clone. */
  method Clone(g: Group) returns (cloned: Group)
    ensures ViewOf(cloned) == ViewOf(g)
    ensures fresh(OwnScaling(cloned))
  {
    var scaling := CloneScaling(g.scaling);
    cloned := g.(scaling := scaling);
  }

  method EnsureScaling(g: Group) returns (result: Group)
    ensures result == g.(scaling := result.scaling) && result.scaling != null
    ensures g.scaling != null ==> result == g
    ensures g.scaling == null ==> fresh(result.scaling) && ScalingView(result.scaling) == Some(Scaling("", None))
  {
    result := g;
    if g.scaling == null {
      var scaling := new ScalingSpec("", None);
      result := g.(scaling := scaling);
    }
  }

  /** One iteration of applyFieldMask. */
  method ApplyPath(dst: Group, src: Group, path: string) returns (error: Option<MaskError>, result: Group)
    requires dst.scaling == null || dst.scaling != src.scaling
    modifies OwnScaling(dst)
    ensures error.Some? <==> IsBad(Parse(path), old(ViewOf(src)))
    ensures error.Some? ==> error.value.path == path && (error.value.UnsupportedPath? <==> Parse(path).Unsupported?)
    ensures error.None? ==> ViewOf(result) == Masked(old(ViewOf(dst)), old(ViewOf(src)), {Parse(path)})
    ensures result.scaling == dst.scaling || fresh(OwnScaling(result))
  {
    hide Parse;
    result := dst;
    error := None;
    match Parse(path)
    case TaskQueueTypes => result := result.(taskTypes := src.taskTypes);
    case RegionIds => result := result.(regionIds := src.regionIds);
    case Provider => result := result.(compute := src.compute);
    case ProviderType => result := result.(compute := result.compute.(providerType := src.compute.providerType));
    case ProviderDetails => result := result.(compute := result.compute.(config := src.compute.config));
    case ProviderNexusEndpoint =>
      result := result.(compute := result.compute.(nexusEndpoint := src.compute.nexusEndpoint));
    case Scaler =>
      var scaling := CloneScaling(src.scaling);
      result := result.(scaling := scaling);
    case ScalerType =>
      if src.scaling == null {
        return Some(ScalerNotProvided(path)), result;
      }
      result := EnsureScaling(result);
      result.scaling.algorithm := src.scaling.algorithm;
    case ScalerDetails =>
      if src.scaling == null {
        return Some(ScalerNotProvided(path)), result;
      }
      result := EnsureScaling(result);
      result.scaling.config := src.scaling.config;
    case Unsupported(_) =>
      return Some(UnsupportedPath(path)), result;
  }

  /** applyFieldMask: only the set of paths matters, for the result and for failure. */
  method ApplyFieldMask(dst: Group, src: Group, mask: seq<string>) returns (error: Option<MaskError>, result: Group)
    requires dst.scaling == null || dst.scaling != src.scaling
    modifies OwnScaling(dst)
    ensures error.Some? <==> MaskFails(old(ViewOf(src)), PathsOf(mask))
    ensures error.Some? ==> ErrorFits(error.value, old(ViewOf(src)), mask)
    ensures error.None? ==> ViewOf(result) == Masked(old(ViewOf(dst)), old(ViewOf(src)), PathsOf(mask))
    ensures error.Some? <==> exists path :: path in mask && CannotApply(path, old(ViewOf(src)))
    ensures error.None? ==> TakesCovered(ViewOf(result), old(ViewOf(dst)), old(ViewOf(src)), mask)
    ensures result.scaling == dst.scaling || fresh(OwnScaling(result))
  {
    hide Parse, IsBad, Masked, CannotApply, TakesCovered;
    MaskByStrings(ViewOf(dst), ViewOf(src), mask);
    result := dst;
    MaskExtremes(ViewOf(dst), ViewOf(src), {});
    assert PathsOf(mask[..0]) == {};
    for i := 0 to |mask|
      invariant result.scaling == dst.scaling || fresh(OwnScaling(result))
      invariant ViewOf(src) == old(ViewOf(src))
      invariant !MaskFails(old(ViewOf(src)), PathsOf(mask[..i]))
      invariant ViewOf(result) == Masked(old(ViewOf(dst)), old(ViewOf(src)), PathsOf(mask[..i]))
    {
      error, result := ApplyPath(result, src, mask[i]);
      PathsOfStep(mask, i);
      if error.Some? {
        assert Parse(mask[i]) in PathsOf(mask);
        return;
      }
      MasksCompose(old(ViewOf(dst)), old(ViewOf(src)), PathsOf(mask[..i]), {Parse(mask[i])});
    }
    assert mask[..|mask|] == mask;
    error := None;
  }

  lemma PathsOfStep(mask: seq<string>, i: nat)
    requires i < |mask|
    ensures PathsOf(mask[..i + 1]) == PathsOf(mask[..i]) + {Parse(mask[i])}
  {
    assert mask[..i + 1] == mask[..i] + [mask[i]];
  }

  // ----- Updated spec -----

  /** The source asks for the prefix "provider" and not the nexus endpoint; on supported paths that is these three. */
  predicate ChangesProvider(p: Path) { p in {Provider, ProviderType, ProviderDetails} }

  predicate LooksLikeProvider(path: string) { "provider" <= path && path != "provider.nexus_endpoint" }

  lemma PrefixFindsProviderPaths(path: string)
    requires !Parse(path).Unsupported?
    ensures LooksLikeProvider(path) <==> ChangesProvider(Parse(path))
  {
    assert path != "" && path[0] == (if Parse(path) in {TaskQueueTypes} then 't'
                                     else if Parse(path) in {RegionIds} then 'r'
                                     else if Parse(path) in {Scaler, ScalerType, ScalerDetails} then 's' else 'p');
  }

  predicate MaskChangesProvider(mask: seq<string>) { exists p :: p in PathsOf(mask) && ChangesProvider(p) }

  ghost predicate UpdateFails(current: map<string, GroupView>, upserts: map<string, UpdateView>) {
    exists k :: k in upserts && k in current && MaskFails(upserts[k].spec, PathsOf(upserts[k].mask))
  }

  /** The failing upsert whose group comes first in the order of names. */
  ghost predicate IsFirstFailing(current: map<string, GroupView>, upserts: map<string, UpdateView>, k: string) {
    && k in upserts && k in current && MaskFails(upserts[k].spec, PathsOf(upserts[k].mask))
    && forall j | j in upserts && j in current && MaskFails(upserts[j].spec, PathsOf(upserts[j].mask)) ::
         j == k || Routing.AtMost(k, j)
  }

  /** The error is about the first failing upsert and the first bad path of its mask. */
  ghost predicate IsFirstError(e: MaskError, current: map<string, GroupView>, upserts: map<string, UpdateView>) {
    exists k :: IsFirstFailing(current, upserts, k) && ErrorFits(e, upserts[k].spec, upserts[k].mask)
  }

  /** What one upsert makes of a group, if any is there. */
  function Upserted(existing: Option<GroupView>, update: UpdateView): GroupView {
    match existing
    case None => update.spec
    case Some(g) => Masked(g, update.spec, PathsOf(update.mask))
  }

  function Lookup(groups: map<string, GroupView>, k: string): Option<GroupView> {
    if k in groups then Some(groups[k]) else None
  }

  /** The updated spec: upserts first, then removals. */
  ghost function Updated(current: map<string, GroupView>, upserts: map<string, UpdateView>, removes: seq<string>)
    : map<string, GroupView>
  {
    map k | k in current.Keys + upserts.Keys && k !in removes ::
      if k in upserts then Upserted(Lookup(current, k), upserts[k]) else current[k]
  }

  /**
   The old groups whose provider the update leaves as it is; a request without changes leaves none out of validation.
   */
  ghost function Unchanged(current: map<string, GroupView>, upserts: map<string, UpdateView>, removes: seq<string>)
    : set<string>
  {
    set k | k in current && (upserts != map[] || removes != []) && k !in removes
            && !(k in upserts && MaskChangesProvider(upserts[k].mask))
  }

  /** The request asks for a path of an old group that cannot be applied. */
  ghost predicate AsksTheImpossible(current: map<string, GroupView>, upserts: map<string, UpdateView>) {
    exists k, path :: k in upserts && k in current && path in upserts[k].mask && CannotApply(path, upserts[k].spec)
  }

  /**
   The updated spec group by group, from the request's strings: it has the old and the upserted groups that are not
   removed; a group not upserted stays as it is, a new one is taken over whole, and an old one takes the fields that its
   mask covers.
   */
  ghost predicate IsUpdateOf(updated: map<string, GroupView>, current: map<string, GroupView>,
                             upserts: map<string, UpdateView>, removes: seq<string>) {
    && (forall k :: k in updated <==> (k in current || k in upserts) && k !in removes)
    && (forall k | k in updated && k !in upserts :: k in current && updated[k] == current[k])
    && (forall k | k in updated && k !in current :: k in upserts && updated[k] == upserts[k].spec)
    && (forall k | k in updated && k in current && k in upserts ::
          TakesCovered(updated[k], current[k], upserts[k].spec, upserts[k].mask))
  }

  /** The old group survives and no path of the request touches its provider's type or config. */
  predicate KeepsProvider(k: string, current: map<string, GroupView>, upserts: map<string, UpdateView>,
                          removes: seq<string>) {
    && k in current && (|upserts| > 0 || |removes| > 0) && k !in removes
    && (k in upserts ==> forall path | path in upserts[k].mask ::
          path != "provider" && path != "provider.type" && path != "provider.details")
  }

  lemma UpdatedByStrings(current: map<string, GroupView>, upserts: map<string, UpdateView>, removes: seq<string>)
    ensures UpdateFails(current, upserts) <==> AsksTheImpossible(current, upserts)
    ensures !UpdateFails(current, upserts) ==> IsUpdateOf(Updated(current, upserts, removes), current, upserts, removes)
    ensures forall k :: k in Unchanged(current, upserts, removes) <==> KeepsProvider(k, current, upserts, removes)
  {
    hide *;
    FailsByStrings(current, upserts);
    if !UpdateFails(current, upserts) {
      FieldsByStrings(current, upserts, removes);
    }
    UnchangedByStrings(current, upserts, removes);
  }

  lemma FailsByStrings(current: map<string, GroupView>, upserts: map<string, UpdateView>)
    ensures UpdateFails(current, upserts) <==> AsksTheImpossible(current, upserts)
  {
    hide CannotApply, TakesCovered, MaskFails, Masked, PathsOf;
    forall k | k in upserts && k in current
      ensures MaskFails(upserts[k].spec, PathsOf(upserts[k].mask))
          <==> exists path :: path in upserts[k].mask && CannotApply(path, upserts[k].spec)
    {
      MaskByStrings(current[k], upserts[k].spec, upserts[k].mask);
    }
  }

  lemma FieldsByStrings(current: map<string, GroupView>, upserts: map<string, UpdateView>, removes: seq<string>)
    requires !UpdateFails(current, upserts)
    ensures IsUpdateOf(Updated(current, upserts, removes), current, upserts, removes)
  {
    hide CannotApply, TakesCovered, MaskFails, Masked, PathsOf;
    var updated := Updated(current, upserts, removes);
    forall k | k in updated && k in current && k in upserts
      ensures TakesCovered(updated[k], current[k], upserts[k].spec, upserts[k].mask)
    {
      MaskByStrings(current[k], upserts[k].spec, upserts[k].mask);
    }
  }

  lemma UnchangedByStrings(current: map<string, GroupView>, upserts: map<string, UpdateView>, removes: seq<string>)
    ensures forall k :: k in Unchanged(current, upserts, removes) <==> KeepsProvider(k, current, upserts, removes)
  {
    hide PathsOf;
    forall k
      ensures k in Unchanged(current, upserts, removes) <==> KeepsProvider(k, current, upserts, removes)
    {
      assert upserts != map[] <==> |upserts| > 0;
      if k in upserts {
        MaskNames(upserts[k].mask);
      }
    }
  }

  /** A group left out of validation survives with its provider type and its provider's config. */
  lemma UnchangedKeepsProvider(current: map<string, GroupView>, upserts: map<string, UpdateView>, removes: seq<string>,
                               k: string)
    requires k in Unchanged(current, upserts, removes)
    ensures k in Updated(current, upserts, removes)
    ensures Updated(current, upserts, removes)[k].compute.providerType == current[k].compute.providerType
    ensures Updated(current, upserts, removes)[k].compute.config == current[k].compute.config
  {
    if k in upserts {
      var paths := PathsOf(upserts[k].mask);
      assert !(Provider in paths && ChangesProvider(Provider));
      assert !(ProviderType in paths && ChangesProvider(ProviderType));
      assert !(ProviderDetails in paths && ChangesProvider(ProviderDetails));
    }
  }

  /** No two groups share a scaling object. */
  ghost predicate Separate(groups: Groups) {
    forall j, k | j in groups && k in groups && j != k && groups[j].scaling != null ::
      groups[j].scaling != groups[k].scaling
  }

  method CloneGroups(groups: Groups) returns (cloned: Groups)
    ensures ViewAll(cloned) == ViewAll(groups)
    ensures fresh(Objects(cloned)) && Separate(cloned)
  {
    cloned := map[];
    var unvisited := groups.Keys;
    while unvisited != {}
      invariant unvisited <= groups.Keys && cloned.Keys == groups.Keys - unvisited
      invariant forall k | k in cloned :: ViewOf(cloned[k]) == ViewOf(groups[k]) && fresh(OwnScaling(cloned[k]))
      invariant Separate(cloned)
      decreases unvisited
    {
      var k :| k in unvisited;
      unvisited := unvisited - {k};
      var g := Clone(groups[k]);
      cloned := cloned[k := g];
    }
  }

  function OwnScalingAt(groups: Groups, k: string): set<ScalingSpec> {
    if k in groups then OwnScaling(groups[k]) else {}
  }

  lemma SupportedPaths(src: GroupView, mask: seq<string>)
    requires !MaskFails(src, PathsOf(mask))
    ensures forall p | p in PathsOf(mask) :: !p.Unsupported?
  {
    forall p | p in PathsOf(mask)
      ensures !p.Unsupported?
    {
      assert !IsBad(p, src);
    }
  }

  /** One upsert: a new group is taken over whole, an existing one gets the masked fields. */
  method Upsert(groups: Groups, k: string, update: Update) returns (error: Option<MaskError>, updated: Groups)
    requires Separate(groups) && OwnScaling(update.spec) !! Objects(groups)
    modifies OwnScalingAt(groups, k)
    ensures error.Some? <==> k in groups && MaskFails(old(ViewOf(update.spec)), PathsOf(update.mask))
    ensures error.Some? ==> ErrorFits(error.value, old(ViewOf(update.spec)), update.mask)
    ensures error.None? && k in groups ==> forall p | p in PathsOf(update.mask) :: !p.Unsupported?
    ensures error.None? ==> Separate(updated) && fresh(Objects(updated) - Objects(groups))
    ensures error.None? ==> ViewAll(updated) == old(
      ViewAll(groups)[k := Upserted(Lookup(ViewAll(groups), k), UpdateView(ViewOf(update.spec), update.mask))])
  {
    hide MaskFails, Masked, CannotApply, TakesCovered;
    error, updated := None, groups;
    MaskExtremes(ViewOf(update.spec), ViewOf(update.spec), {});
    if k !in groups {
      var g := Clone(update.spec);
      updated := groups[k := g];
    } else {
      assert OwnScaling(groups[k]) <= Objects(groups);
      assert groups[k].scaling != null ==> groups[k].scaling in Objects(groups);
      if |update.mask| == 0 {
        MaskExtremes(ViewOf(groups[k]), ViewOf(update.spec), {});
        assert PathsOf(update.mask) == {};
      } else {
        var g;
        error, g := ApplyFieldMask(groups[k], update.spec, update.mask);
        if error.None? {
          SupportedPaths(old(ViewOf(update.spec)), update.mask);
        }
        updated := groups[k := g];
      }
    }
  }

  /** The order in which the source goes through keys. */
  predicate IsOrdered(names: seq<string>) { Routing.NoDuplicates(names) && Routing.IsSorted(names) }

  method Without(names: seq<string>, gone: seq<string>) returns (rest: seq<string>)
    ensures forall n :: n in rest <==> n in names && n !in gone
    ensures IsOrdered(names) ==> IsOrdered(rest)
  {
    hide Routing.AtMost;
    rest := [];
    for i := 0 to |names|
      invariant forall n :: n in rest <==> n in names[..i] && n !in gone
      invariant IsOrdered(names) ==> IsOrdered(rest)
    {
      if names[i] !in gone {
        KeepsOrder(names, i, rest);
        rest := rest + [names[i]];
      }
    }
  }

  lemma KeepsOrder(names: seq<string>, i: nat, rest: seq<string>)
    requires i < |names| && forall n | n in rest :: n in names[..i]
    ensures IsOrdered(names) && IsOrdered(rest) ==> IsOrdered(rest + [names[i]])
  {
    hide Routing.AtMost;
    if IsOrdered(names) {
      forall n | n in rest
        ensures n != names[i] && Routing.AtMost(n, names[i])
      {
        var k :| 0 <= k < i && names[..i][k] == n;
        assert names[k] == n;
      }
      var longer := rest + [names[i]];
      forall a, b | IsOrdered(rest) && 0 <= a < b < |longer|
        ensures longer[a] != longer[b] && Routing.AtMost(longer[a], longer[b])
      {
        assert longer[a] in rest;
      }
    }
  }

  method LooksLikeProviderChange(mask: seq<string>) returns (changes: bool)
    requires forall p | p in PathsOf(mask) :: !p.Unsupported?
    ensures changes <==> MaskChangesProvider(mask)
  {
    hide Parse;
    for i := 0 to |mask|
      invariant forall p | p in PathsOf(mask[..i]) :: !ChangesProvider(p)
    {
      assert Parse(mask[i]) in PathsOf(mask);
      PrefixFindsProviderPaths(mask[i]);
      if LooksLikeProvider(mask[i]) {
        return true;
      }
      PathsOfStep(mask, i);
    }
    assert mask[..|mask|] == mask;
    changes := false;
  }

  method WithoutIfProviderChanged(names: seq<string>, k: string, mask: seq<string>) returns (rest: seq<string>)
    requires forall p | p in PathsOf(mask) :: !p.Unsupported?
    ensures forall n :: n in rest <==> n in names && !(n == k && MaskChangesProvider(mask))
    ensures IsOrdered(names) ==> IsOrdered(rest)
  {
    hide MaskChangesProvider, IsOrdered;
    var changes := LooksLikeProviderChange(mask);
    rest := names;
    if changes {
      rest := Without(names, [k]);
    }
  }

  /** The keys of a map, sorted. */
  method SortedKeys<V>(m: map<string, V>) returns (names: seq<string>)
    ensures forall n :: n in names <==> n in m
    ensures IsOrdered(names)
  {
    names := [];
    var unvisited := m.Keys;
    while unvisited != {}
      invariant unvisited <= m.Keys && Routing.NoDuplicates(names)
      invariant forall n :: n in names <==> n in m && n !in unvisited
      decreases unvisited
    {
      var k :| k in unvisited;
      unvisited := unvisited - {k};
      names := names + [k];
    }
    names := Routing.Sort(names);
  }

  /** An upsert that takes the group off the list of untouched ones if it changes an old group's provider. */
  method UpsertTracked(groups: Groups, k: string, update: Update, names: seq<string>)
    returns (error: Option<MaskError>, updated: Groups, rest: seq<string>)
    requires Separate(groups) && OwnScaling(update.spec) !! Objects(groups)
    modifies OwnScalingAt(groups, k)
    ensures error.Some? <==> k in groups && MaskFails(old(ViewOf(update.spec)), PathsOf(update.mask))
    ensures error.Some? ==> ErrorFits(error.value, old(ViewOf(update.spec)), update.mask)
    ensures error.None? ==> Separate(updated) && fresh(Objects(updated) - Objects(groups))
    ensures error.None? ==> ViewAll(updated) == old(
      ViewAll(groups)[k := Upserted(Lookup(ViewAll(groups), k), UpdateView(ViewOf(update.spec), update.mask))])
    ensures error.None? ==> forall n ::
      n in rest <==> n in names && !(n == k && k in groups && MaskChangesProvider(update.mask))
    ensures IsOrdered(names) ==> IsOrdered(rest)
  {
    hide Upserted, Masked, MaskFails, MaskChangesProvider, Separate, ViewAll, Lookup, PathsOf, IsOrdered;
    rest := names;
    error, updated := Upsert(groups, k, update);
    if error.None? && k in groups {
      rest := WithoutIfProviderChanged(names, k, update.mask);
    }
  }

  /** What the upserts done so far have made of the groups. */
  ghost function PartlyUpdated(before: map<string, GroupView>, upserts: map<string, UpdateView>, done: set<string>)
    : map<string, GroupView>
  {
    map k | k in before.Keys + (upserts.Keys * done) ::
      if k in upserts && k in done then Upserted(Lookup(before, k), upserts[k]) else before[k]
  }

  lemma PartlyUpdatedStep(before: map<string, GroupView>, upserts: map<string, UpdateView>, done: set<string>,
                          k: string)
    requires k in upserts && k !in done
    ensures k in PartlyUpdated(before, upserts, done) <==> k in before
    ensures Lookup(PartlyUpdated(before, upserts, done), k) == Lookup(before, k)
    ensures PartlyUpdated(before, upserts, done + {k})
         == PartlyUpdated(before, upserts, done)[k := Upserted(Lookup(before, k), upserts[k])]
  {
  }

  lemma PartlyUpdatedBounds(before: map<string, GroupView>, upserts: map<string, UpdateView>)
    ensures PartlyUpdated(before, upserts, {}) == before
    ensures PartlyUpdated(before, upserts, upserts.Keys).Keys == before.Keys + upserts.Keys
  {
  }

  method ApplyUpserts(groups: Groups, upserts: map<string, Update>, names: seq<string>)
    returns (error: Option<MaskError>, updated: Groups, untouched: seq<string>)
    requires Separate(groups) && Objects(groups) !! UpdateObjects(upserts) && IsOrdered(names)
    modifies Objects(groups)
    ensures error.Some? <==> UpdateFails(old(ViewAll(groups)), old(ViewUpdates(upserts)))
    ensures error.Some? ==> IsFirstError(error.value, old(ViewAll(groups)), old(ViewUpdates(upserts)))
    ensures error.None? ==> fresh(Objects(updated) - Objects(groups))
    ensures error.None? ==>
        ViewAll(updated) == PartlyUpdated(old(ViewAll(groups)), old(ViewUpdates(upserts)), upserts.Keys)
    ensures error.None? ==> IsOrdered(untouched)
    ensures error.None? ==> forall n ::
      n in untouched <==> n in names && !(n in upserts && n in groups && MaskChangesProvider(upserts[n].mask))
  {
    hide MaskFails, Masked, MaskChangesProvider, PathsOf, Upserted, Separate, IsOrdered, PartlyUpdated, ErrorFits;
    hide IsFirstFailing, Routing.AtMost, NoneFails, ListsUntouched, UpdateFails, IsFirstError;
    ghost var before, asked := ViewAll(groups), ViewUpdates(upserts);
    error, updated, untouched := None, groups, names;
    var order := SortedKeys(upserts);
    ghost var visited: set<string> := {};
    PartlyUpdatedBounds(before, asked);
    NothingDone(before, asked, names, groups.Keys, upserts);
    for i := 0 to |order|
      invariant visited == Elements(order[..i]) && Separate(updated) && IsOrdered(untouched)
      invariant error.None? && fresh(Objects(updated) - Objects(groups))
      invariant ViewAll(updated) == PartlyUpdated(before, asked, visited)
      invariant NoneFails(before, asked, visited) && ListsUntouched(untouched, names, groups.Keys, upserts, visited)
    {
      var k := order[i];
      NextInOrder(order, i);
      PartlyUpdatedStep(before, asked, visited, k);
      UpsertFits(updated, upserts, k);
      assert ViewUpdates(upserts) == asked && (k in updated <==> k in groups);
      hide ViewAll, ViewUpdates, ViewOf, Objects, UpdateObjects, Lookup, OwnScaling, OwnScalingAt, Elements;
      ghost var earlier, earlierUntouched := updated, untouched;
      error, updated, untouched := UpsertTracked(updated, k, upserts[k], untouched);
      if error.Some? {
        FirstFailure(before, asked, order, i, error.value);
        return;
      }
      OneMoreDone(before, asked, visited, k);
      OneMoreListed(earlierUntouched, untouched, names, groups.Keys, upserts, visited, k);
      visited := visited + {k};
      assert Objects(updated) - Objects(groups)
          <= (Objects(updated) - Objects(earlier)) + (Objects(earlier) - Objects(groups));
    }
    assert order[..|order|] == order;
    assert visited == upserts.Keys;
    AllDone(before, asked, untouched, names, groups.Keys, upserts);
  }

  ghost predicate NoneFails(current: map<string, GroupView>, upserts: map<string, UpdateView>, done: set<string>) {
    forall k | k in current && k in done && k in upserts :: !MaskFails(upserts[k].spec, PathsOf(upserts[k].mask))
  }

  /** The names that no upsert done so far has taken off the list. */
  ghost predicate ListsUntouched(untouched: seq<string>, names: seq<string>, existing: set<string>,
                                 upserts: map<string, Update>, done: set<string>) {
    forall n :: n in untouched <==>
      n in names && !(n in upserts && n in done && n in existing && MaskChangesProvider(upserts[n].mask))
  }

  lemma NothingDone(current: map<string, GroupView>, asked: map<string, UpdateView>, names: seq<string>,
                    existing: set<string>, upserts: map<string, Update>)
    ensures NoneFails(current, asked, {}) && ListsUntouched(names, names, existing, upserts, {})
  {
  }

  lemma OneMoreDone(current: map<string, GroupView>, asked: map<string, UpdateView>, done: set<string>, k: string)
    requires NoneFails(current, asked, done) && k in asked
    requires k in current ==> !MaskFails(asked[k].spec, PathsOf(asked[k].mask))
    ensures NoneFails(current, asked, done + {k})
  {
  }

  lemma OneMoreListed(before: seq<string>, after: seq<string>, names: seq<string>, existing: set<string>,
                      upserts: map<string, Update>, done: set<string>, k: string)
    requires ListsUntouched(before, names, existing, upserts, done) && k in upserts
    requires forall n :: n in after <==>
        n in before && !(n == k && k in existing && MaskChangesProvider(upserts[k].mask))
    ensures ListsUntouched(after, names, existing, upserts, done + {k})
  {
    hide MaskChangesProvider;
  }

  lemma AllDone(current: map<string, GroupView>, asked: map<string, UpdateView>, untouched: seq<string>,
                names: seq<string>, existing: set<string>, upserts: map<string, Update>)
    requires NoneFails(current, asked, upserts.Keys) && asked.Keys == upserts.Keys
    requires ListsUntouched(untouched, names, existing, upserts, upserts.Keys)
    ensures !UpdateFails(current, asked)
    ensures forall n :: n in untouched <==>
              n in names && !(n in upserts && n in existing && MaskChangesProvider(upserts[n].mask))
  {
    hide MaskChangesProvider, MaskFails;
  }

  lemma UpsertFits(groups: Groups, upserts: map<string, Update>, k: string)
    requires k in upserts
    ensures OwnScaling(upserts[k].spec) <= UpdateObjects(upserts) && OwnScalingAt(groups, k) <= Objects(groups)
    ensures UpdateView(ViewOf(upserts[k].spec), upserts[k].mask) == ViewUpdates(upserts)[k]
    ensures k in groups <==> k in ViewAll(groups)
  {
  }

  ghost function Elements(names: seq<string>): set<string> { set n | n in names }

  lemma NextInOrder(order: seq<string>, i: nat)
    requires IsOrdered(order) && i < |order|
    ensures order[i] !in Elements(order[..i]) && Elements(order[..i + 1]) == Elements(order[..i]) + {order[i]}
    ensures forall n | n in order && n !in Elements(order[..i]) :: n == order[i] || Routing.AtMost(order[i], n)
  {
    hide Routing.AtMost;
    assert order[..i + 1] == order[..i] + [order[i]];
    forall n | n in order && n !in Elements(order[..i])
      ensures n == order[i] || Routing.AtMost(order[i], n)
    {
      assert order == order[..i] + order[i..];
      var j :| 0 <= j < |order[i..]| && order[i..][j] == n;
      assert order[i + j] == n;
    }
  }

  /** Going through the names in order, the first failure met is the first there is. */
  lemma FirstFailure(current: map<string, GroupView>, upserts: map<string, UpdateView>, order: seq<string>, i: nat,
                     e: MaskError)
    requires IsOrdered(order) && (forall n :: n in order <==> n in upserts) && i < |order| && order[i] in current
    requires MaskFails(upserts[order[i]].spec, PathsOf(upserts[order[i]].mask))
    requires ErrorFits(e, upserts[order[i]].spec, upserts[order[i]].mask)
    requires NoneFails(current, upserts, Elements(order[..i]))
    ensures UpdateFails(current, upserts) && IsFirstError(e, current, upserts)
  {
    hide MaskFails, PathsOf, Routing.AtMost, IsOrdered, Elements, ErrorFits;
    NextInOrder(order, i);
    assert IsFirstFailing(current, upserts, order[i]);
  }

  function Dropping<V>(m: map<string, V>, gone: seq<string>): map<string, V> {
    map k | k in m && k !in gone :: m[k]
  }

  method WithoutAll(groups: Groups, gone: seq<string>) returns (rest: Groups)
    ensures ViewAll(rest) == Dropping(old(ViewAll(groups)), gone)
    ensures Objects(rest) <= Objects(groups)
  {
    rest := groups;
    for i := 0 to |gone|
      invariant rest == Dropping(groups, gone[..i])
    {
      rest := rest - {gone[i]};
    }
    assert gone[..|gone|] == gone;
  }

  /** A nil spec has no groups. */
  function GroupsOf(current: Option<Groups>): Groups {
    if current.Some? then current.value else map[]
  }

  method CloneCurrent(current: Option<Groups>) returns (groups: Groups)
    ensures ViewAll(groups) == old(ViewAll(GroupsOf(current)))
    ensures fresh(Objects(groups)) && Separate(groups)
  {
    groups := map[];
    if current.Some? {
      groups := CloneGroups(current.value);
    }
  }

  /** The names that start out as untouched: none for a request without changes. */
  method NamesNotRemoved(groups: Groups, anyChange: bool, removes: seq<string>) returns (names: seq<string>)
    ensures forall n :: n in names <==> anyChange && n in groups && n !in removes
    ensures IsOrdered(names)
  {
    names := [];
    if anyChange {
      names := SortedKeys(groups);
      names := Without(names, removes);
    }
  }

  /** The request carried out on groups of one's own. */
  method UpdateInPlace(groups: Groups, upserts: map<string, Update>, removes: seq<string>)
    returns (error: Option<MaskError>, updated: Groups, untouched: seq<string>)
    requires Separate(groups) && Objects(groups) !! UpdateObjects(upserts)
    modifies Objects(groups)
    ensures error.Some? <==> UpdateFails(old(ViewAll(groups)), old(ViewUpdates(upserts)))
    ensures error.Some? ==> IsFirstError(error.value, old(ViewAll(groups)), old(ViewUpdates(upserts)))
    ensures error.None? ==> ViewAll(updated) == Updated(old(ViewAll(groups)), old(ViewUpdates(upserts)), removes)
    ensures error.None? ==> fresh(Objects(updated) - Objects(groups)) && IsOrdered(untouched)
    ensures error.None? ==> forall n :: n in untouched <==>
        n in Unchanged(old(ViewAll(groups)), old(ViewUpdates(upserts)), removes)
  {
    assert ViewUpdates(upserts).Keys == upserts.Keys && ViewAll(groups).Keys == groups.Keys;
    hide Upserted, MaskFails, MaskChangesProvider, Separate, PathsOf, IsOrdered, ViewAll, ViewUpdates, ViewOf;
    hide Unchanged, Updated, PartlyUpdated, UpdateFails, Dropping, UpdateObjects;
    ghost var before, asked := ViewAll(groups), ViewUpdates(upserts);
    var names := NamesNotRemoved(groups, upserts != map[] || removes != [], removes);
    UntouchedAreUnchanged(groups, upserts, removes, before);
    error, updated, untouched := ApplyUpserts(groups, upserts, names);
    if error.None? {
      PartlyUpdatedEnds(before, asked, removes);
      updated := WithoutAll(updated, removes);
    }
  }

  /**
   BuildUpdatedSpec. It writes no object that existed before, so the current spec and the request stay as they were;
   the new groups are made of new objects only.
   */
  method BuildUpdatedSpec(current: Option<Groups>, upserts: map<string, Update>, removes: seq<string>)
    returns (error: Option<MaskError>, updated: Groups, untouched: seq<string>)
    ensures error.Some? <==> UpdateFails(old(ViewAll(GroupsOf(current))), old(ViewUpdates(upserts)))
    ensures error.Some? ==> IsFirstError(error.value, old(ViewAll(GroupsOf(current))), old(ViewUpdates(upserts)))
    ensures error.None? ==>
        ViewAll(updated) == Updated(old(ViewAll(GroupsOf(current))), old(ViewUpdates(upserts)), removes)
    ensures error.None? ==> fresh(Objects(updated)) && IsOrdered(untouched)
    ensures error.None? ==> forall n ::
      n in untouched <==> n in Unchanged(old(ViewAll(GroupsOf(current))), old(ViewUpdates(upserts)), removes)
    ensures error.Some? <==> AsksTheImpossible(old(ViewAll(GroupsOf(current))), old(ViewUpdates(upserts)))
    ensures error.None? ==>
        IsUpdateOf(ViewAll(updated), old(ViewAll(GroupsOf(current))), old(ViewUpdates(upserts)), removes)
    ensures error.None? ==> forall n ::
      n in untouched <==> KeepsProvider(n, old(ViewAll(GroupsOf(current))), old(ViewUpdates(upserts)), removes)
  {
    hide Separate, IsOrdered, ViewAll, ViewUpdates, Unchanged, Updated, UpdateFails;
    hide AsksTheImpossible, IsUpdateOf, KeepsProvider;
    UpdatedByStrings(ViewAll(GroupsOf(current)), ViewUpdates(upserts), removes);
    assert forall o | o in UpdateObjects(upserts) :: allocated(o);
    var groups := CloneCurrent(current);
    assert ViewUpdates(upserts) == old(ViewUpdates(upserts));
    error, updated, untouched := UpdateInPlace(groups, upserts, removes);
  }

  lemma UntouchedAreUnchanged(groups: Groups, upserts: map<string, Update>, removes: seq<string>,
                              before: map<string, GroupView>)
    requires groups.Keys == before.Keys
    ensures forall n :: n in Unchanged(before, ViewUpdates(upserts), removes) <==>
      && (upserts != map[] || removes != []) && n in groups && n !in removes
      && !(n in upserts && n in groups && MaskChangesProvider(upserts[n].mask))
  {
    hide MaskChangesProvider;
    assert upserts == map[] <==> upserts.Keys == {};
    assert ViewUpdates(upserts) == map[] <==> ViewUpdates(upserts).Keys == {};
    assert ViewUpdates(upserts).Keys == upserts.Keys;
  }

  lemma PartlyUpdatedEnds(before: map<string, GroupView>, upserts: map<string, UpdateView>, removes: seq<string>)
    ensures Updated(before, upserts, removes)
         == Dropping(PartlyUpdated(before, upserts, upserts.Keys), removes)
  {
  }
}
