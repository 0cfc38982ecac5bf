/**
 * `RealEstateMediaPipeline` (realestate_scrapy/pipelines/media_pipeline.py):
 * one download request per gallery image, floor plan and document, each
 * carrying its category and 1-based position; the stored files are named
 * `realestate/hl/{external_id}/{category}-{index}.{ext}`, and the item's
 * `images`, `floor_plan` and `pdf_document` are replaced by the
 * original-to-target mappings of the successful results, each result's
 * `file_info` taken to be the report `file_downloaded` builds.
 */
module RealEstateMediaPipeline {
  import opened Wrappers
  import opened PyStr
  import opened PyValue
  import opened PosixPath

  // ---------------------------------------------------------------------
  // Requests

  /** `scrapy.Request(url=..., meta=...)`. */
  datatype Request = Request(url: string, meta: map<string, Value>)

  /** The meta every request of this pipeline carries (lines 32-37). */
  function RequestMeta(externalId: Value, category: string, index: nat, original: string): map<string, Value>
  {
    map["external_id" := externalId, "category" := Str(category), "index" := Int(index), "original_url" := Str(original)]
  }

  /** `for x in v`: the elements of a list or tuple, the one-character
      strings of a `str`; a number or a datetime is not iterable. */
  function Elements(v: Value): Result<seq<Value>>
  {
    match v
    case List(xs) => Ok(xs)
    case Tuple(xs) => Ok(xs)
    case Str(s) => Ok(seq(|s|, i requires 0 <= i < |s| => Str([s[i]])))
    case _ => Err(TypeError)
  }

  /** Lines 28-50: one request per URL with its 1-based position;
      `Request` refuses a URL that is not a `str` with TypeError. */
  function RequestsFor(urls: seq<Value>, externalId: Value, category: string): (r: Result<seq<Request>>)
    ensures r.Ok? <==> forall i :: 0 <= i < |urls| ==> urls[i].Str?
    ensures r.Err? ==> r.error == TypeError
    ensures r.Ok? ==> |r.value| == |urls| && forall i :: 0 <= i < |urls| ==>
      r.value[i] == Request(urls[i].s, RequestMeta(externalId, category, i + 1, urls[i].s))
  {
    if exists i :: 0 <= i < |urls| && !urls[i].Str? then Err(TypeError)
    else Ok(seq(|urls|, i requires 0 <= i < |urls| => Request(urls[i].s, RequestMeta(externalId, category, i + 1, urls[i].s))))
  }

  /** The requests for one list field, none when it is falsy. */
  function FieldRequests(item: Item, f: Field, category: string): Result<seq<Request>>
  {
    if !Truthy(Get(item, f)) then Ok([])
    else match Elements(item[f])
      case Err(e) => Err(e)
      case Ok(urls) => RequestsFor(urls, Get(item, ExternalId), category)
  }

  /** Lines 52-61: a truthy `pdf_document` is one URL, requested once with
      index 1; a list there is refused by `Request` with TypeError. */
  function DocumentRequest(item: Item): Result<seq<Request>>
  {
    var doc := Get(item, PdfDocument);
    if !Truthy(doc) then Ok([])
    else if !doc.Str? then Err(TypeError)
    else Ok([Request(doc.s, RequestMeta(Get(item, ExternalId), "pdf", 1, doc.s))])
  }

  /** `get_media_requests(item, info)`: gallery, then floor plans, then the
      document; the first failure ends the generator. */
  function GetMediaRequests(item: Item): Result<seq<Request>>
  {
    match FieldRequests(item, Images, "gallery")
    case Err(e) => Err(e)
    case Ok(gallery) =>
      match FieldRequests(item, FloorPlan, "floorplan")
      case Err(e) => Err(e)
      case Ok(plans) =>
        match DocumentRequest(item)
        case Err(e) => Err(e)
        case Ok(doc) => Ok(gallery + plans + doc)
  }

  /** A list of URLs gives one request per URL, numbered from 1 in list
      order; an empty one gives none. */
  lemma FieldRequestsOfList(item: Item, f: Field, category: string, urls: seq<string>)
    requires Get(item, f) == StrList(urls)
    ensures FieldRequests(item, f, category).Ok?
    ensures var rs := FieldRequests(item, f, category).value;
      && |rs| == |urls|
      && forall i :: 0 <= i < |urls| ==> rs[i] == Request(urls[i], RequestMeta(Get(item, ExternalId), category, i + 1, urls[i]))
  {
    if Truthy(Get(item, f)) {
      assert item[f] == StrList(urls);
      assert forall i :: 0 <= i < |urls| ==> StrList(urls).items[i].Str?;
    } else {
      assert |urls| == 0;
    }
  }

  /** With `images` and `floor_plan` lists of URLs and `pdf_document` a URL
      or falsy, there is one request per image and per plan, numbered from
      1 in list order, and one for the document when there is one. */
  lemma MediaRequestsOfLists(item: Item, images: seq<string>, plans: seq<string>)
    requires Get(item, Images) == StrList(images) && Get(item, FloorPlan) == StrList(plans)
    requires Truthy(Get(item, PdfDocument)) ==> Get(item, PdfDocument).Str?
    ensures GetMediaRequests(item).Ok?
    ensures var rs := GetMediaRequests(item).value;
      var id := Get(item, ExternalId);
      && |rs| == |images| + |plans| + (if Truthy(Get(item, PdfDocument)) then 1 else 0)
      && (forall i :: 0 <= i < |images| ==> rs[i] == Request(images[i], RequestMeta(id, "gallery", i + 1, images[i])))
      && (forall i :: 0 <= i < |plans| ==>
            rs[|images| + i] == Request(plans[i], RequestMeta(id, "floorplan", i + 1, plans[i])))
      && (Truthy(Get(item, PdfDocument)) ==>
            rs[|rs| - 1] == Request(Get(item, PdfDocument).s, RequestMeta(id, "pdf", 1, Get(item, PdfDocument).s)))
  {
    FieldRequestsOfList(item, Images, "gallery", images);
    FieldRequestsOfList(item, FloorPlan, "floorplan", plans);
    var g := FieldRequests(item, Images, "gallery").value;
    var p := FieldRequests(item, FloorPlan, "floorplan").value;
    var d := DocumentRequest(item);
    assert d.Ok?;
    var rs := g + p + d.value;
    assert GetMediaRequests(item) == Ok(rs);
    assert |rs| == |images| + |plans| + |d.value|;
    assert forall i :: 0 <= i < |images| ==> rs[i] == g[i];
    forall i | 0 <= i < |plans|
      ensures rs[|images| + i] == p[i]
    {
      assert (g + p)[|g| + i] == p[i];
    }
    if Truthy(Get(item, PdfDocument)) {
      assert rs[|rs| - 1] == d.value[0];
    } else {
      assert d.value == [];
    }
  }

  /** A list in `pdf_document`, which is what the other two pipelines leave
      there, makes the request fail with TypeError. */
  lemma DocumentListRaises(item: Item, urls: seq<Value>)
    requires Get(item, PdfDocument) == List(urls) && urls != []
    requires FieldRequests(item, Images, "gallery").Ok? && FieldRequests(item, FloorPlan, "floorplan").Ok?
    ensures GetMediaRequests(item) == Err(TypeError)
  {
  }

  // ---------------------------------------------------------------------
  // File names

  /** `request.meta.get(key, default)`. */
  function MetaGet(meta: map<string, Value>, key: string, default: Value): Value
  {
    if key in meta then meta[key] else default
  }

  /** `"pdf" if category == "pdf" else "jpg"`. */
  function Extension(category: Value): (ext: string)
    ensures ext == "pdf" <==> category == Str("pdf")
  {
    if category == Str("pdf") then "pdf" else "jpg"
  }

  /** `f"{category}-{index}.{ext}"`. */
  function FileName(category: Value, index: Value): string
  {
    Render(category) + "-" + Render(index) + "." + Extension(category)
  }

  /** Lines 69-74: the path `file_path` computes from the meta, with
      "unknown", "file" and 1 standing in for what is missing. Used as the
      corrected `file_path`, which returns it. */
  function FilePath(meta: map<string, Value>): string
  {
    var externalId := MetaGet(meta, "external_id", Str("unknown"));
    var category := MetaGet(meta, "category", Str("file"));
    var index := MetaGet(meta, "index", Int(1));
    Join(["realestate", "hl", Render(externalId), FileName(category, index)])
  }

  /** `file_path` as written: the path is computed and logged, but there
      is no `return`, so the call evaluates to None. */
  function FilePathAsWritten(meta: map<string, Value>): Value
  {
    Null
  }

  /** As written every file's path is None, though a path was computed. */
  lemma FilePathReturnsNone(meta: map<string, Value>)
    ensures FilePathAsWritten(meta) == Null
    ensures |FilePath(meta)| > 0
  {
    JoinEndsWithLast(["realestate", "hl", Render(MetaGet(meta, "external_id", Str("unknown"))),
      FileName(MetaGet(meta, "category", Str("file")), MetaGet(meta, "index", Int(1)))]);
  }

  /** A file name ends in a dot and its extension. */
  lemma FileNameSuffix(category: Value, index: Value)
    ensures var name := FileName(category, index);
      |name| >= 4 && name[|name| - 4..] == (if category == Str("pdf") then ".pdf" else ".jpg")
  {
    var name := FileName(category, index);
    var dotted := "." + Extension(category);
    assert name == (Render(category) + "-" + Render(index)) + dotted;
    assert dotted == (if category == Str("pdf") then ".pdf" else ".jpg");
  }

  /** The corrected path ends in `.pdf` exactly when the category is
      "pdf", and in `.jpg` otherwise. */
  lemma FilePathExtension(meta: map<string, Value>)
    ensures var category := MetaGet(meta, "category", Str("file"));
      && (category == Str("pdf") ==> EndsWith(FilePath(meta), ".pdf"))
      && (category != Str("pdf") ==> EndsWith(FilePath(meta), ".jpg") && !EndsWith(FilePath(meta), ".pdf"))
  {
    var category := MetaGet(meta, "category", Str("file"));
    var index := MetaGet(meta, "index", Int(1));
    var name := FileName(category, index);
    FileNameSuffix(category, index);
    var parts := ["realestate", "hl", Render(MetaGet(meta, "external_id", Str("unknown"))), name];
    JoinEndsWithLast(parts);
    var p := Join(parts);
    assert p == FilePath(meta);
    var suffix := if category == Str("pdf") then ".pdf" else ".jpg";
    assert p[|p| - 4..] == suffix by {
      assert p[|p| - |name|..] == name;
      assert p[|p| - 4..] == name[|name| - 4..];
    }
    assert ".jpg" != ".pdf" by {
      assert ".jpg"[1] != ".pdf"[1];
    }
  }

  /** The file name of a request of this pipeline. */
  lemma RequestFileName(category: string, index: nat)
    requires Plain(category)
    ensures FileName(Str(category), Int(index)) == category + "-" + NatString(index) + "." + Extension(Str(category))
    ensures Plain(FileName(Str(category), Int(index)))
  {
    NatStringValue(index);
    var name := FileName(Str(category), Int(index));
    forall i | 0 <= i < |name| ensures name[i] != '/' {
      if i < |category| {
        assert name[i] == category[i];
      } else if |category| < i < |category| + 1 + |NatString(index)| {
        assert name[i] == NatString(index)[i - |category| - 1];
      }
    }
  }

  /** The meta of a request of this pipeline supplies every part. */
  lemma RequestPathParts(id: string, category: string, index: nat, url: string)
    ensures FilePath(RequestMeta(Str(id), category, index, url))
      == Join(["realestate", "hl", id, FileName(Str(category), Int(index))])
  {
    var meta := RequestMeta(Str(id), category, index, url);
    assert MetaGet(meta, "external_id", Str("unknown")) == Str(id);
    assert MetaGet(meta, "category", Str("file")) == Str(category);
    assert MetaGet(meta, "index", Int(1)) == Int(index);
  }

  /** The path of a request made by this pipeline, for an id and a category
      without separators: `realestate/hl/{id}/{category}-{index}.{ext}`. */
  lemma FilePathOfRequest(id: string, category: string, index: nat, url: string)
    requires Plain(id) && Plain(category)
    ensures FilePath(RequestMeta(Str(id), category, index, url))
      == "realestate/hl/" + id + "/" + FileName(Str(category), Int(index))
    ensures FileName(Str(category), Int(index)) == category + "-" + NatString(index) + "." + Extension(Str(category))
  {
    RequestPathParts(id, category, index, url);
    RequestFileName(category, index);
    var name := FileName(Str(category), Int(index));
    LiteralsPlain();
    JoinPlain4("realestate", "hl", id, name);
    HeadOfPath(id, name);
  }

  /** The fixed components of a path have no separator in them. */
  lemma LiteralsPlain()
    ensures Plain("realestate") && Plain("hl") && Plain("unknown") && Plain("file-1.jpg")
  {
  }

  lemma HeadOfPath(id: string, name: string)
    ensures "realestate" + "/" + "hl" + "/" + id + "/" + name == "realestate/hl/" + id + "/" + name
  {
  }

  /** With no meta at all the path is `realestate/hl/unknown/file-1.jpg`. */
  lemma FilePathDefaults()
    ensures FilePath(map[]) == "realestate/hl/unknown/file-1.jpg"
  {
    DefaultParts();
    DefaultFileName();
    DefaultJoin();
  }

  lemma DefaultParts()
    ensures FilePath(map[]) == Join(["realestate", "hl", "unknown", FileName(Str("file"), Int(1))])
  {
  }

  lemma DefaultFileName()
    ensures FileName(Str("file"), Int(1)) == "file-1.jpg"
  {
    assert NatString(1) == "1";
  }

  lemma DefaultJoin()
    ensures Join(["realestate", "hl", "unknown", "file-1.jpg"]) == "realestate/hl/unknown/file-1.jpg"
  {
    LiteralsPlain();
    JoinPlain4("realestate", "hl", "unknown", "file-1.jpg");
    HeadOfPath("unknown", "file-1.jpg");
    assert "realestate/hl/" + "unknown" + "/" + "file-1.jpg" == "realestate/hl/unknown/file-1.jpg";
  }

  /** Lines 77-84: what a download reports. `original` is the meta's
      `original_url`, or the request's URL; the category and index are
      carried through. As written `target` is None, the corrected path
      otherwise. */
  function FileDownloaded(v: Variant, request: Request): (info: Value)
    ensures info.Dict? && info.entries.Keys == {"original", "target", "category", "index"}
  {
    Dict(map[
      "original" := MetaGet(request.meta, "original_url", Str(request.url)),
      "target" := if v == AsWritten then FilePathAsWritten(request.meta) else Str(FilePath(request.meta)),
      "category" := MetaGet(request.meta, "category", Null),
      "index" := MetaGet(request.meta, "index", Null)])
  }

  /** A request of this pipeline reports its own URL as `original`, its
      category and index, and, corrected, its path as `target`. */
  lemma DownloadedOfRequest(v: Variant, externalId: Value, category: string, index: nat, url: string)
    ensures var request := Request(url, RequestMeta(externalId, category, index, url));
      var info := FileDownloaded(v, request).entries;
      && info["original"] == Str(url)
      && info["category"] == Str(category) && info["index"] == Int(index)
      && info["target"] == (if v == AsWritten then Null else Str(FilePath(request.meta)))
  {
  }

  /** A request without `original_url` reports the URL it was made for. */
  lemma DownloadedFallsBackToUrl(v: Variant, request: Request)
    requires "original_url" !in request.meta
    ensures FileDownloaded(v, request).entries["original"] == Str(request.url)
  {
  }

  // ---------------------------------------------------------------------
  // Completion

  /** One `(success, file_info)` pair of the `results` list; a successful
      result's `file_info` is taken to be a report as `FileDownloaded`
      builds it. */
  datatype MediaResult = MediaResult(success: bool, info: Value)

  /** `file_info.get(key)` on a dict. */
  function InfoGet(info: Value, key: string): Value
    requires info.Dict?
  {
    if key in info.entries then info.entries[key] else Null
  }

  /** Lines 99-102: `{"original": ..., "target": ...}`. */
  function MappingOf(info: Value): Value
    requires info.Dict?
  {
    Dict(map["original" := InfoGet(info, "original"), "target" := InfoGet(info, "target")])
  }

  /** `file_info.get` needs a dict: a successful result must carry one. */
  predicate InfosAreDicts(results: seq<MediaResult>)
  {
    forall i :: 0 <= i < |results| && results[i].success ==> results[i].info.Dict?
  }

  /** Whether a result goes to `category`'s list: it succeeded and says so. */
  predicate Filed(r: MediaResult, category: string)
  {
    r.success && r.info.Dict? && InfoGet(r.info, "category") == Str(category)
  }

  /** The mappings of the results filed under `category`, in order. */
  function Mappings(results: seq<MediaResult>, category: string): seq<Value>
  {
    if results == [] then []
    else
      var last := results[|results| - 1];
      Mappings(results[..|results| - 1], category)
        + (if Filed(last, category) then [MappingOf(last.info)] else [])
  }

  /** The number of results that go nowhere: failed, or of another category. */
  function Unfiled(results: seq<MediaResult>): nat
  {
    if results == [] then 0
    else
      var last := results[|results| - 1];
      Unfiled(results[..|results| - 1])
        + (if Filed(last, "gallery") || Filed(last, "floorplan") || Filed(last, "pdf") then 0 else 1)
  }

  /** Lines 110-115: a field is replaced by its mappings only when there
      are some. */
  function Replace(item: Item, f: Field, mappings: seq<Value>): Item
  {
    if mappings != [] then item[f := List(mappings)] else item
  }

  /** What `item_completed` returns. */
  function CompletedItem(item: Item, results: seq<MediaResult>): Result<Item>
  {
    if !InfosAreDicts(results) then Err(AttributeError)
    else
      Ok(Replace(Replace(Replace(item,
        Images, Mappings(results, "gallery")),
        FloorPlan, Mappings(results, "floorplan")),
        PdfDocument, Mappings(results, "pdf")))
  }

  /** `item_completed(results, item, info)`, the item passed by value. */
  method ItemCompleted(item: Item, results: seq<MediaResult>) returns (r: Result<Item>)
    ensures r == CompletedItem(item, results)
  {
    var gallery: seq<Value> := [];
    var plans: seq<Value> := [];
    var documents: seq<Value> := [];
    for i := 0 to |results|
      invariant InfosAreDicts(results[..i])
      invariant gallery == Mappings(results[..i], "gallery")
      invariant plans == Mappings(results[..i], "floorplan")
      invariant documents == Mappings(results[..i], "pdf")
    {
      var prefix := results[..i + 1];
      assert prefix[..i] == results[..i] && prefix[i] == results[i];
      var result := results[i];
      if result.success {
        if !result.info.Dict? {
          return Err(AttributeError);
        }
        var cat := InfoGet(result.info, "category");
        var mapping := MappingOf(result.info);
        if cat == Str("gallery") {
          gallery := gallery + [mapping];
        } else if cat == Str("floorplan") {
          plans := plans + [mapping];
        } else if cat == Str("pdf") {
          documents := documents + [mapping];
        }
      }
    }
    assert results[..|results|] == results;
    var out := item;
    if gallery != [] {
      out := out[Images := List(gallery)];
    }
    if plans != [] {
      out := out[FloorPlan := List(plans)];
    }
    if documents != [] {
      out := out[PdfDocument := List(documents)];
    }
    r := Ok(out);
  }

  /** Result order is kept within each category: the mappings of `a + b`
      are those of `a` followed by those of `b`. */
  lemma {:induction false} MappingsAppend(a: seq<MediaResult>, b: seq<MediaResult>, category: string)
    ensures Mappings(a + b, category) == Mappings(a, category) + Mappings(b, category)
    decreases |b|
  {
    if b == [] {
      assert a + b == a;
    } else {
      assert (a + b)[..|a + b| - 1] == a + b[..|b| - 1];
      MappingsAppend(a, b[..|b| - 1], category);
    }
  }

  /** Every result lands in exactly one place: one of the three lists, or
      nowhere. */
  lemma {:induction false} MappingsPartition(results: seq<MediaResult>)
    ensures |Mappings(results, "gallery")| + |Mappings(results, "floorplan")| + |Mappings(results, "pdf")|
      + Unfiled(results) == |results|
    decreases |results|
  {
    if results != [] {
      MappingsPartition(results[..|results| - 1]);
    }
  }

  /** When every result is a stored file of one category, that category's
      list holds the mapping of each, in order. */
  lemma {:induction false} MappingsAllFiled(results: seq<MediaResult>, category: string)
    requires forall i :: 0 <= i < |results| ==>
      results[i].success && results[i].info.Dict? && InfoGet(results[i].info, "category") == Str(category)
    ensures |Mappings(results, category)| == |results|
    ensures forall i :: 0 <= i < |results| ==> Mappings(results, category)[i] == MappingOf(results[i].info)
    decreases |results|
  {
    if results != [] {
      var init := results[..|results| - 1];
      assert forall i :: 0 <= i < |init| ==> init[i] == results[i];
      MappingsAllFiled(init, category);
    }
  }

  /** Failed results add nothing to any list. */
  lemma {:induction false} FailuresDropped(results: seq<MediaResult>, category: string)
    requires forall i :: 0 <= i < |results| ==> !results[i].success
    ensures Mappings(results, category) == []
    ensures Unfiled(results) == |results|
    decreases |results|
  {
    if results != [] {
      var init := results[..|results| - 1];
      assert forall i :: 0 <= i < |init| ==> init[i] == results[i];
      FailuresDropped(init, category);
    }
  }

  /** A field with no stored file keeps its prior value, or stays absent;
      a field with some is replaced by their mappings; nothing else
      changes. */
  lemma CompletedKeepsEmpty(item: Item, results: seq<MediaResult>)
    requires InfosAreDicts(results)
    ensures CompletedItem(item, results).Ok?
    ensures var out := CompletedItem(item, results).value;
      && (Mappings(results, "gallery") == [] ==> (Images in out <==> Images in item) && (Images in item ==> out[Images] == item[Images]))
      && (Mappings(results, "gallery") != [] ==> Images in out && out[Images] == List(Mappings(results, "gallery")))
      && (Mappings(results, "floorplan") == [] ==> (FloorPlan in out <==> FloorPlan in item) && (FloorPlan in item ==> out[FloorPlan] == item[FloorPlan]))
      && (Mappings(results, "floorplan") != [] ==> FloorPlan in out && out[FloorPlan] == List(Mappings(results, "floorplan")))
      && (Mappings(results, "pdf") == [] ==> (PdfDocument in out <==> PdfDocument in item) && (PdfDocument in item ==> out[PdfDocument] == item[PdfDocument]))
      && (Mappings(results, "pdf") != [] ==> PdfDocument in out && out[PdfDocument] == List(Mappings(results, "pdf")))
      && forall f :: f != Images && f != FloorPlan && f != PdfDocument ==> (f in out <==> f in item) && (f in item ==> out[f] == item[f])
  {
    CompletedField(item, results, Images, "gallery");
    CompletedField(item, results, FloorPlan, "floorplan");
    CompletedField(item, results, PdfDocument, "pdf");
  }

  /** The three replacements one after the other, and what each leaves. */
  lemma CompletedField(item: Item, results: seq<MediaResult>, f: Field, category: string)
    requires InfosAreDicts(results)
    requires f == Images || f == FloorPlan || f == PdfDocument
    requires category == (if f == Images then "gallery" else if f == FloorPlan then "floorplan" else "pdf")
    ensures CompletedItem(item, results).Ok?
    ensures var out := CompletedItem(item, results).value;
      && (Mappings(results, category) == [] ==> (f in out <==> f in item) && (f in item ==> out[f] == item[f]))
      && (Mappings(results, category) != [] ==> f in out && out[f] == List(Mappings(results, category)))
      && forall g :: g != Images && g != FloorPlan && g != PdfDocument ==> (g in out <==> g in item) && (g in item ==> out[g] == item[g])
  {
    var i1 := Replace(item, Images, Mappings(results, "gallery"));
    var i2 := Replace(i1, FloorPlan, Mappings(results, "floorplan"));
    var i3 := Replace(i2, PdfDocument, Mappings(results, "pdf"));
    ReplaceLaw(item, Images, Mappings(results, "gallery"));
    ReplaceLaw(i1, FloorPlan, Mappings(results, "floorplan"));
    ReplaceLaw(i2, PdfDocument, Mappings(results, "pdf"));
    assert CompletedItem(item, results) == Ok(i3);
  }

  /** Replacing one field leaves it alone when there are no mappings, and
      touches no other field. */
  lemma ReplaceLaw(item: Item, f: Field, mappings: seq<Value>)
    ensures mappings == [] ==> Replace(item, f, mappings) == item
    ensures mappings != [] ==> f in Replace(item, f, mappings) && Replace(item, f, mappings)[f] == List(mappings)
    ensures forall g :: g != f ==>
      (g in Replace(item, f, mappings) <==> g in item) && (g in item ==> Replace(item, f, mappings)[g] == item[g])
  {
  }

  /** As written, the report `file_downloaded` returns has `target` None,
      because `file_path` returns None; a mapping built from that report
      would carry the same None. */
  lemma AsWrittenTargetsNone(request: Request)
    ensures "target" in FileDownloaded(AsWritten, request).entries
    ensures FileDownloaded(AsWritten, request).entries["target"] == Null
    ensures MappingOf(FileDownloaded(AsWritten, request)).entries["target"] == Null
  {
  }
}
