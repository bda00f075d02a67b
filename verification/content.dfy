/** The item decisions of ArcGISOnlineHelper (aol_helper.py) over an abstract platform: a
    sequence of titled items in the order the platform's search ranks them. */
module Content {
  import opened Wrappers

  const FeatureLayer: string := "Feature Layer"
  const ShapefileType: string := "Shapefile"

  datatype Item = Item(id: nat, title: string, itemType: string, folder: Option<string>, tags: seq<string>)

  /** The organisation's content and folders; `nextId` is the id the next new item gets. */
  datatype Platform = Platform(items: seq<Item>, folders: set<string>, nextId: nat)

  /** No two items share an id. */
  ghost predicate DistinctIds(items: seq<Item>)
    decreases |items|
  {
    |items| == 0 || ((forall it :: it in items[1..] ==> it.id != items[0].id) && DistinctIds(items[1..]))
  }

  /** Item ids are distinct and below `nextId`. */
  ghost predicate Valid(p: Platform) {
    && (forall it :: it in p.items ==> it.id < p.nextId)
    && DistinctIds(p.items)
  }

  /** A Python argument that is either a list of tags or some other value (None by default). */
  datatype TagsArg = TagList(tags: seq<string>) | NotAList

  datatype Helper = Helper(analysisFolder: Option<string>, commonTags: seq<string>)

  /** The `layer_properties` dict: `title` and `type` may be absent. */
  datatype LayerProperties = LayerProperties(title: Option<string>, itemType: Option<string>, tags: seq<string>)

  /** A file handed to `content.add`, known here only by the type the platform infers for it
      when the item properties give none. */
  datatype DataFile = DataFile(inferredType: string)

  /** `if analysis_folder:` — None and the empty string are false. */
  predicate Truthy(folder: Option<string>) {
    folder.Some? && |folder.value| > 0
  }

  /** The constructor: the analysis folder is created and kept when given; `common_tags` is kept
      only when it is a non-empty list. */
  function NewHelper(p: Platform, analysisFolder: Option<string>, commonTags: TagsArg): (r: (Platform, Helper))
    ensures r.0.items == p.items && r.0.nextId == p.nextId
    ensures forall f :: f in r.0.folders <==> f in p.folders || (Truthy(analysisFolder) && f == analysisFolder.value)
  {
    var folder := if Truthy(analysisFolder) then analysisFolder else None;
    var p' := if Truthy(analysisFolder) then p.(folders := p.folders + {analysisFolder.value}) else p;
    var tags := if commonTags.TagList? && |commonTags.tags| > 0 then commonTags.tags else [];
    (p', Helper(folder, tags))
  }

  /** The helper keeps the given tags exactly when they are a non-empty list and has none
      otherwise; it has an analysis folder exactly when a non-empty name was given, and that folder
      then exists on the platform. */
  lemma NewHelperSpec(p: Platform, analysisFolder: Option<string>, commonTags: TagsArg)
    ensures var (p', h) := NewHelper(p, analysisFolder, commonTags);
            && (commonTags.TagList? && |commonTags.tags| > 0 ==> h.commonTags == commonTags.tags)
            && (!(commonTags.TagList? && |commonTags.tags| > 0) ==> h.commonTags == [])
            && (h.analysisFolder.Some? <==> Truthy(analysisFolder))
            && (h.analysisFolder.Some? ==>
                  h.analysisFolder == analysisFolder && h.analysisFolder.value in p'.folders)
            && p.folders <= p'.folders
            && (!Truthy(analysisFolder) ==> p' == p)
            && (Truthy(analysisFolder) ==> p'.folders == p.folders + {analysisFolder.value})
  {
  }

  /** The tags of an upload: the common tags, then the given ones when they are a list. */
  function UploadTags(commonTags: seq<string>, tags: TagsArg): (r: seq<string>)
    ensures |r| >= |commonTags| && r[..|commonTags|] == commonTags
    ensures tags.TagList? ==> r[|commonTags|..] == tags.tags
    ensures tags.NotAList? ==> r == commonTags
  {
    match tags
    case TagList(ts) => commonTags + ts
    case NotAList => commonTags
  }

  predicate OfType(it: Item, itemType: Option<string>) {
    itemType.None? || it.itemType == itemType.value
  }

  /** The platform's search: every item of the requested type, in ranking order. */
  function Search(items: seq<Item>, itemType: Option<string>): (r: seq<Item>)
    ensures forall k :: 0 <= k < |r| ==> r[k] in items && OfType(r[k], itemType)
    ensures forall it :: it in items && OfType(it, itemType) ==> it in r
    decreases |items|
  {
    if |items| == 0 then []
    else (if OfType(items[0], itemType) then [items[0]] else []) + Search(items[1..], itemType)
  }

  /** The loop of `get_item`: the first search result whose title is exactly `title`. */
  function FirstTitled(results: seq<Item>, title: string): (r: Option<Item>)
    ensures r.Some? ==> exists i :: 0 <= i < |results| && results[i] == r.value && r.value.title == title
                                    && forall j :: 0 <= j < i ==> results[j].title != title
    ensures r.None? <==> forall i :: 0 <= i < |results| ==> results[i].title != title
    decreases |results|
  {
    if |results| == 0 then None
    else if results[0].title == title then Some(results[0])
    else FirstTitled(results[1..], title)
  }

  /** The same loop, as written with its early return. */
  method FirstTitledLoop(results: seq<Item>, title: string) returns (found: Option<Item>)
    ensures found == FirstTitled(results, title)
  {
    var i := 0;
    while i < |results|
      invariant 0 <= i <= |results|
      invariant FirstTitled(results, title) == FirstTitled(results[i..], title)
    {
      if results[i].title == title {
        return Some(results[i]);
      }
      assert results[i..][1..] == results[i + 1..];
      i := i + 1;
    }
    return None;
  }

  predicate Matches(it: Item, title: string, itemType: Option<string>) {
    it.title == title && OfType(it, itemType)
  }

  /** `x` is the first platform item with this exact title and (when given) type. */
  ghost predicate FirstMatching(items: seq<Item>, x: Item, title: string, itemType: Option<string>) {
    exists i :: && 0 <= i < |items| && items[i] == x && Matches(x, title, itemType)
                && forall j :: 0 <= j < i ==> !Matches(items[j], title, itemType)
  }

  /** The first platform item with this exact title and type, searched directly. */
  function FirstMatch(items: seq<Item>, title: string, itemType: Option<string>): (r: Option<Item>)
    ensures r.Some? ==> FirstMatching(items, r.value, title, itemType)
    ensures r.None? <==> forall i :: 0 <= i < |items| ==> !Matches(items[i], title, itemType)
    decreases |items|
  {
    if |items| == 0 then None
    else if Matches(items[0], title, itemType) then Some(items[0])
    else
      var r := FirstMatch(items[1..], title, itemType);
      assert r.Some? ==> FirstMatching(items, r.value, title, itemType) by {
        if r.Some? {
          var i :| && 0 <= i < |items[1..]| && items[1..][i] == r.value && Matches(r.value, title, itemType)
                   && forall j :: 0 <= j < i ==> !Matches(items[1..][j], title, itemType);
          assert items[i + 1] == r.value;
          assert forall j :: 0 < j < i + 1 ==> items[j] == items[1..][j - 1];
        }
      }
      assert r.None? ==> forall i :: 0 < i < |items| ==> items[i] == items[1..][i - 1];
      r
  }

  /** Selecting the first exact title from the typed search is the first matching item. */
  lemma {:induction false} SearchThenSelect(items: seq<Item>, title: string, itemType: Option<string>)
    ensures FirstTitled(Search(items, itemType), title) == FirstMatch(items, title, itemType)
    decreases |items|
  {
    if |items| > 0 {
      var tail := items[1..];
      SearchThenSelect(tail, title, itemType);
      var rest := Search(tail, itemType);
      var results := Search(items, itemType);
      if OfType(items[0], itemType) {
        assert results == [items[0]] + rest;
        assert results[1..] == rest;
      } else {
        assert results == rest;
      }
    }
  }

  /** `get_item`. */
  function GetItem(p: Platform, props: LayerProperties): (r: Result<Option<Item>, Error>)
    ensures r.Failure? <==> props.title.None?
    ensures r.Failure? ==> r.error == MissingTitle
    ensures r.Success? && r.value.Some? ==>
              r.value.value in p.items && Matches(r.value.value, props.title.value, props.itemType)
  {
    if props.title.None? then Failure(MissingTitle)
    else Success(FirstTitled(Search(p.items, props.itemType), props.title.value))
  }

  /** `get_item` fails exactly when no title is given; otherwise it finds the first platform item
      whose title is exactly the title and whose type is the requested one, or None when there is
      no such item. */
  lemma GetItemSpec(p: Platform, props: LayerProperties)
    ensures GetItem(p, props).Failure? <==> props.title.None?
    ensures GetItem(p, props).Failure? ==> GetItem(p, props).error == MissingTitle
    ensures GetItem(p, props).Success? && GetItem(p, props).value.Some? ==>
              FirstMatching(p.items, GetItem(p, props).value.value, props.title.value, props.itemType)
    ensures GetItem(p, props).Success? && GetItem(p, props).value.None? ==>
              forall i :: 0 <= i < |p.items| ==> !Matches(p.items[i], props.title.value, props.itemType)
  {
    if props.title.Some? {
      SearchThenSelect(p.items, props.title.value, props.itemType);
    }
  }

  lemma GetItemIsFirstMatch(p: Platform, props: LayerProperties)
    requires props.title.Some?
    ensures GetItem(p, props) == Success(FirstMatch(p.items, props.title.value, props.itemType))
  {
    SearchThenSelect(p.items, props.title.value, props.itemType);
  }

  /** The items other than `x`, in order. */
  function Without(items: seq<Item>, x: Item): (r: seq<Item>)
    ensures forall it :: it in r <==> it in items && it != x
    ensures |r| <= |items|
    decreases |items|
  {
    if |items| == 0 then []
    else (if items[0] == x then [] else [items[0]]) + Without(items[1..], x)
  }

  /** `item.delete()`. */
  function Delete(p: Platform, x: Item): (r: Platform)
    ensures x !in r.items
    ensures forall it :: it in r.items <==> it in p.items && it != x
    ensures r.folders == p.folders && r.nextId == p.nextId
  {
    p.(items := Without(p.items, x))
  }

  /** `content.add`: a new item with a fresh id, at the end of the content. */
  function Add(p: Platform, title: string, itemType: string, folder: Option<string>, tags: seq<string>)
    : (r: (Platform, Item))
    ensures r.0.items == p.items + [r.1] && r.1.id == p.nextId && r.0.nextId == p.nextId + 1
    ensures r.1.title == title && r.1.itemType == itemType && r.1.folder == folder && r.1.tags == tags
  {
    var it := Item(p.nextId, title, itemType, folder, tags);
    (Platform(p.items + [it], p.folders, p.nextId + 1), it)
  }

  lemma {:induction false} WithoutKeepsDistinct(items: seq<Item>, x: Item)
    requires DistinctIds(items)
    ensures DistinctIds(Without(items, x))
    decreases |items|
  {
    if |items| > 0 {
      WithoutKeepsDistinct(items[1..], x);
      var r := Without(items, x);
      if items[0] != x {
        assert r == [items[0]] + Without(items[1..], x);
        assert r[1..] == Without(items[1..], x);
        assert forall it :: it in r[1..] ==> it in items[1..];
      } else {
        assert r == Without(items[1..], x);
      }
    }
  }

  lemma DeleteKeepsValid(p: Platform, x: Item)
    requires Valid(p)
    ensures Valid(Delete(p, x))
  {
    WithoutKeepsDistinct(p.items, x);
  }

  lemma {:induction false} AppendFreshKeepsDistinct(items: seq<Item>, it: Item)
    requires DistinctIds(items)
    requires forall other :: other in items ==> other.id != it.id
    ensures DistinctIds(items + [it])
    decreases |items|
  {
    if |items| > 0 {
      AppendFreshKeepsDistinct(items[1..], it);
      assert (items + [it])[1..] == items[1..] + [it];
    } else {
      assert items + [it] == [it];
      assert [it][1..] == [];
    }
  }

  lemma AddKeepsValid(p: Platform, title: string, itemType: string, folder: Option<string>, tags: seq<string>)
    requires Valid(p)
    ensures Valid(Add(p, title, itemType, folder, tags).0)
  {
    var (after, it) := Add(p, title, itemType, folder, tags);
    AppendFreshKeepsDistinct(p.items, it);
  }

  /** `get_or_save_item`; the result is the platform after the calls, the item, and whether it
      was created. */
  function GetOrSaveItem(p: Platform, h: Helper, props: LayerProperties, data: DataFile, deleteExisting: bool)
    : (r: Result<(Platform, Item, bool), Error>)
    ensures r.Failure? <==> props.title.None?
    ensures r.Success? ==> (r.value.2 <==> GetItem(p, props).value.None? || deleteExisting)
    ensures r.Success? && !r.value.2 ==> r.value.0 == p && r.value.1 in p.items
    ensures r.Success? && r.value.2 ==> r.value.1.title == props.title.value && r.value.1.id == p.nextId
  {
    var existing :- GetItem(p, props);
    if existing.Some? && !deleteExisting then Success((p, existing.value, false))
    else
      var cleared := if existing.Some? then Delete(p, existing.value) else p;
      var (after, item) := Add(cleared, props.title.value, AddedType(props, data),
                               h.analysisFolder, props.tags);
      Success((after, item, true))
  }

  /** The type of an item added from `layer_properties`: its `type` if given, otherwise the
      type the platform infers from the data. */
  function AddedType(props: LayerProperties, data: DataFile): string {
    if props.itemType.Some? then props.itemType.value else data.inferredType
  }

  /** An existing item is reused, untouched, unless `delete_existing` is set. */
  lemma GetOrSaveReuses(p: Platform, h: Helper, props: LayerProperties, data: DataFile, deleteExisting: bool)
    requires GetItem(p, props).Success? && GetItem(p, props).value.Some?
    requires !deleteExisting
    ensures GetOrSaveItem(p, h, props, data, deleteExisting) == Success((p, GetItem(p, props).value.value, false))
  {
  }

  /** Otherwise the existing item, if any, is deleted and a new item with the requested title is
      added to the analysis folder and returned as created; ids stay distinct. */
  lemma GetOrSaveCreates(p: Platform, h: Helper, props: LayerProperties, data: DataFile, deleteExisting: bool)
    requires Valid(p)
    requires GetItem(p, props).Success?
    requires GetItem(p, props).value.None? || deleteExisting
    ensures var r := GetOrSaveItem(p, h, props, data, deleteExisting);
            && r.Success?
            && var (after, item, created) := r.value;
               && created
               && item.title == props.title.value && item.folder == h.analysisFolder
               && item.itemType == AddedType(props, data) && item.tags == props.tags
               && (GetItem(p, props).value.None? ==> after.items == p.items + [item])
               && (GetItem(p, props).value.Some? ==>
                     after.items == Without(p.items, GetItem(p, props).value.value) + [item]
                     && GetItem(p, props).value.value !in after.items)
               && item !in p.items
               && Valid(after)
  {
    var existing := GetItem(p, props).value;
    var cleared := if existing.Some? then Delete(p, existing.value) else p;
    if existing.Some? {
      DeleteKeepsValid(p, existing.value);
      GetItemSpec(p, props);
    }
    AddKeepsValid(cleared, props.title.value, AddedType(props, data), h.analysisFolder, props.tags);
  }

  /** `delete_if_exists_item`. */
  function DeleteIfExistsItem(p: Platform, props: LayerProperties): (r: Result<(Platform, bool), Error>)
    ensures r.Failure? <==> GetItem(p, props).Failure?
    ensures r.Success? ==> (r.value.1 <==> GetItem(p, props).value.Some?)
    ensures r.Success? && GetItem(p, props).value.Some? ==> r.value.0 == Delete(p, GetItem(p, props).value.value)
    ensures r.Success? && GetItem(p, props).value.None? ==> r.value.0 == p
  {
    var found :- GetItem(p, props);
    match found
    case Some(it) => Success((Delete(p, it), true))
    case None => Success((p, false))
  }

  /** What the scan over the Feature Layer results of `publish_item` ends in. */
  datatype Scan = Reuse(existing: Item) | Cleared(after: Platform)

  /** The loop of `publish_item`: the first exact-title layer is returned when overwriting is
      off; with overwriting on, every exact-title layer is deleted and the scan goes on. */
  function PublishScan(p: Platform, results: seq<Item>, title: string, overWrite: bool): (r: Scan)
    ensures r.Reuse? ==> !overWrite && r.existing in results && r.existing.title == title
    ensures !overWrite && r.Cleared? ==> r.after == p
    ensures r.Cleared? ==> r.after.folders == p.folders && r.after.nextId == p.nextId
    decreases |results|
  {
    if |results| == 0 then Cleared(p)
    else if results[0].title == title then
      if overWrite then PublishScan(Delete(p, results[0]), results[1..], title, overWrite)
      else Reuse(results[0])
    else PublishScan(p, results[1..], title, overWrite)
  }

  /** `publish_item`: returns the platform after the calls, the layer, and whether it was
      published now. The new layer takes the source item's title, folder and tags. */
  function PublishItem(p: Platform, item: Item, overWrite: bool): (r: (Platform, Item, bool))
    ensures r.1.title == item.title && r.1.itemType == FeatureLayer
    ensures !r.2 ==> !overWrite && r.0 == p && r.1 in p.items
    ensures r.2 ==> |r.0.items| >= 1 && r.0.items[|r.0.items| - 1] == r.1 && r.1.id == p.nextId
  {
    match PublishScan(p, Search(p.items, Some(FeatureLayer)), item.title, overWrite)
    case Reuse(existing) => (p, existing, false)
    case Cleared(cleared) =>
      var (after, layer) := Add(cleared, item.title, FeatureLayer, item.folder, item.tags);
      (after, layer, true)
  }

  predicate IsLayerTitled(it: Item, title: string) {
    it.itemType == FeatureLayer && it.title == title
  }

  /** The items that are not Feature Layers titled `title`, in order. */
  function WithoutLayers(items: seq<Item>, title: string): (r: seq<Item>)
    ensures forall it :: it in r <==> it in items && !IsLayerTitled(it, title)
    decreases |items|
  {
    if |items| == 0 then []
    else (if IsLayerTitled(items[0], title) then [] else [items[0]]) + WithoutLayers(items[1..], title)
  }

  /** The items of `items` not in `gone`, in order. */
  function Drop(items: seq<Item>, gone: set<Item>): seq<Item>
    decreases |items|
  {
    if |items| == 0 then []
    else (if items[0] in gone then [] else [items[0]]) + Drop(items[1..], gone)
  }

  lemma {:induction false} DropWithout(items: seq<Item>, gone: set<Item>, x: Item)
    ensures Without(Drop(items, gone), x) == Drop(items, gone + {x})
    decreases |items|
  {
    if |items| > 0 {
      DropWithout(items[1..], gone, x);
      var d := Drop(items, gone);
      var dt := Drop(items[1..], gone);
      if items[0] !in gone {
        assert d == [items[0]] + dt;
        assert d[0] == items[0] && d[1..] == dt;
        if items[0] == x {
          assert Without(d, x) == Without(dt, x);
        } else {
          assert Without(d, x) == [items[0]] + Without(dt, x);
        }
      } else {
        assert d == dt;
      }
    }
  }

  lemma {:induction false} DropEmpty(items: seq<Item>)
    ensures Drop(items, {}) == items
    decreases |items|
  {
    if |items| > 0 {
      DropEmpty(items[1..]);
      assert items == [items[0]] + items[1..];
    }
  }

  lemma {:induction false} DropIsWithoutLayers(items: seq<Item>, gone: set<Item>, title: string)
    requires forall it :: it in items ==> (it in gone <==> IsLayerTitled(it, title))
    ensures Drop(items, gone) == WithoutLayers(items, title)
    decreases |items|
  {
    if |items| > 0 {
      DropIsWithoutLayers(items[1..], gone, title);
    }
  }

  /** The exact-title results among `results`. */
  function Titled(results: seq<Item>, title: string): set<Item> {
    set it | it in results && it.title == title
  }

  /** With overwriting on, the scan deletes exactly the exact-title results, in any platform. */
  lemma {:induction false} ScanOverwrite(items: seq<Item>, folders: set<string>, nextId: nat,
                                         gone: set<Item>, results: seq<Item>, title: string)
    ensures var p := Platform(Drop(items, gone), folders, nextId);
            PublishScan(p, results, title, true)
            == Cleared(Platform(Drop(items, gone + Titled(results, title)), folders, nextId))
    decreases |results|
  {
    var p := Platform(Drop(items, gone), folders, nextId);
    if |results| == 0 {
      assert Titled(results, title) == {};
      assert gone + {} == gone;
    } else {
      var rest := results[1..];
      if results[0].title == title {
        DropWithout(items, gone, results[0]);
        assert Delete(p, results[0]) == Platform(Drop(items, gone + {results[0]}), folders, nextId);
        ScanOverwrite(items, folders, nextId, gone + {results[0]}, rest, title);
        assert Titled(results, title) == {results[0]} + Titled(rest, title);
        assert gone + {results[0]} + Titled(rest, title) == gone + Titled(results, title);
      } else {
        ScanOverwrite(items, folders, nextId, gone, rest, title);
        assert Titled(results, title) == Titled(rest, title);
      }
    }
  }

  /** Without overwriting, the scan deletes nothing: it reuses the first exact-title result, or
      there is none and the platform is unchanged. */
  lemma {:induction false} ScanKeep(p: Platform, results: seq<Item>, title: string)
    ensures FirstTitled(results, title).Some? ==>
              PublishScan(p, results, title, false) == Reuse(FirstTitled(results, title).value)
    ensures FirstTitled(results, title).None? ==> PublishScan(p, results, title, false) == Cleared(p)
    decreases |results|
  {
    if |results| > 0 && results[0].title != title {
      ScanKeep(p, results[1..], title);
    }
  }

  /** A Feature Layer titled like the item already exists and overwriting is off: that layer
      (the first one) is returned and nothing is published or deleted. */
  lemma PublishReuses(p: Platform, item: Item)
    requires exists i :: 0 <= i < |p.items| && IsLayerTitled(p.items[i], item.title)
    ensures var (after, layer, published) := PublishItem(p, item, false);
            && after == p && !published
            && FirstMatching(p.items, layer, item.title, Some(FeatureLayer))
  {
    var results := Search(p.items, Some(FeatureLayer));
    SearchThenSelect(p.items, item.title, Some(FeatureLayer));
    var i :| 0 <= i < |p.items| && IsLayerTitled(p.items[i], item.title);
    assert Matches(p.items[i], item.title, Some(FeatureLayer));
    ScanKeep(p, results, item.title);
  }

  /** Otherwise every Feature Layer titled like the item is gone afterwards, the other items are
      kept in order, and the newly published layer comes last and is reported as published. */
  lemma PublishReplaces(p: Platform, item: Item, overWrite: bool)
    requires Valid(p)
    requires overWrite || forall i :: 0 <= i < |p.items| ==> !IsLayerTitled(p.items[i], item.title)
    ensures var (after, layer, published) := PublishItem(p, item, overWrite);
            && published
            && after.items == WithoutLayers(p.items, item.title) + [layer]
            && layer.title == item.title && layer.itemType == FeatureLayer
            && layer !in p.items
            && Valid(after)
  {
    var results := Search(p.items, Some(FeatureLayer));
    var cleared := Platform(WithoutLayers(p.items, item.title), p.folders, p.nextId);
    if overWrite {
      DropEmpty(p.items);
      ScanOverwrite(p.items, p.folders, p.nextId, {}, results, item.title);
      assert {} + Titled(results, item.title) == Titled(results, item.title);
      forall it | it in p.items ensures it in Titled(results, item.title) <==> IsLayerTitled(it, item.title) {
        if IsLayerTitled(it, item.title) {
          assert OfType(it, Some(FeatureLayer));
        }
      }
      DropIsWithoutLayers(p.items, Titled(results, item.title), item.title);
      assert PublishScan(p, results, item.title, true) == Cleared(cleared);
    } else {
      SearchThenSelect(p.items, item.title, Some(FeatureLayer));
      ScanKeep(p, results, item.title);
      WithoutLayersNone(p.items, item.title);
    }
    WithoutLayersKeepsDistinct(p.items, item.title);
    AddKeepsValid(cleared, item.title, FeatureLayer, item.folder, item.tags);
  }

  lemma {:induction false} WithoutLayersNone(items: seq<Item>, title: string)
    requires forall i :: 0 <= i < |items| ==> !IsLayerTitled(items[i], title)
    ensures WithoutLayers(items, title) == items
    decreases |items|
  {
    if |items| > 0 {
      assert !IsLayerTitled(items[0], title);
      forall i | 0 <= i < |items[1..]| ensures !IsLayerTitled(items[1..][i], title) {
        assert items[1..][i] == items[i + 1];
      }
      WithoutLayersNone(items[1..], title);
      assert WithoutLayers(items, title) == [items[0]] + WithoutLayers(items[1..], title);
      assert items == [items[0]] + items[1..];
    }
  }

  lemma {:induction false} WithoutLayersKeepsDistinct(items: seq<Item>, title: string)
    requires DistinctIds(items)
    ensures DistinctIds(WithoutLayers(items, title))
    decreases |items|
  {
    if |items| > 0 {
      WithoutLayersKeepsDistinct(items[1..], title);
      var r := WithoutLayers(items, title);
      if !IsLayerTitled(items[0], title) {
        assert r == [items[0]] + WithoutLayers(items[1..], title);
        assert r[1..] == WithoutLayers(items[1..], title);
        assert forall it :: it in r[1..] ==> it in items[1..];
      } else {
        assert r == WithoutLayers(items[1..], title);
      }
    }
  }

  /** `upload_csv`: add the file with the merged tags and no type (outside the analysis
      folder), then publish it directly, with no check for an existing layer. */
  function UploadCsv(p: Platform, h: Helper, csv: DataFile, layerName: string, tags: TagsArg)
    : (r: (Platform, Item, Item))
    ensures r.1.itemType == csv.inferredType && r.1.title == layerName && r.1.folder.None?
    ensures r.1.tags == UploadTags(h.commonTags, tags)
    ensures r.2.itemType == FeatureLayer && r.2.title == layerName && r.2.tags == r.1.tags
    ensures r.0.items == p.items + [r.1, r.2]
  {
    var (added, source) := Add(p, layerName, csv.inferredType, None, UploadTags(h.commonTags, tags));
    var (published, table) := Add(added, source.title, FeatureLayer, source.folder, source.tags);
    (published, source, table)
  }

  /** `upload_shapefile` after zipping: add the zip as a Shapefile with the merged tags, then
      publish it directly. */
  function UploadShapefile(p: Platform, h: Helper, layerName: string, tags: TagsArg)
    : (r: (Platform, Item, Item))
    ensures r.1.itemType == ShapefileType && r.1.title == layerName && r.1.folder.None?
    ensures r.1.tags == UploadTags(h.commonTags, tags)
    ensures r.2.itemType == FeatureLayer && r.2.title == layerName && r.2.tags == r.1.tags
    ensures r.0.items == p.items + [r.1, r.2]
  {
    var (added, source) := Add(p, layerName, ShapefileType, None, UploadTags(h.commonTags, tags));
    var (published, flayer) := Add(added, source.title, FeatureLayer, source.folder, source.tags);
    (published, source, flayer)
  }
}
