/**
 * What the two storage pipelines, `HlImagesPipeline` and
 * `HlDocumentsPipeline`, share: the storage path of a downloaded file, built
 * from the item's `external_id` and the file's position among the item's
 * source URLs, and the CDN URL of every stored file.
 */
module StoredFiles {
  import opened Wrappers
  import opened PyStr
  import opened PyValue
  import opened PosixPath

  // ---------------------------------------------------------------------
  // Storage paths

  /** The first position of `x` in `xs`, as `list.index` finds it. */
  function FirstIndex(xs: seq<Value>, x: Value): (r: Option<nat>)
    ensures r.Some? ==> r.value < |xs| && xs[r.value] == x
    ensures r.Some? ==> forall i :: 0 <= i < r.value ==> xs[i] != x
    ensures r.None? <==> forall i :: 0 <= i < |xs| ==> xs[i] != x
  {
    if xs == [] then None
    else if xs[0] == x then Some(0)
    else match FirstIndex(xs[1..], x)
      case Some(i) => Some(i + 1)
      case None => None
  }

  /** `v.index(url)` for the value a field holds: a list or tuple finds the
      element, a `str` finds the substring, a miss is ValueError, and a
      value without an `index` method (None, a number, a dict) raises
      AttributeError. */
  function IndexOf(v: Value, url: string): (r: Result<nat>)
    ensures (v.List? || v.Tuple?) && r.Ok? ==> r.value < |v.items| && v.items[r.value] == Str(url)
    ensures (v.List? || v.Tuple?) && r.Ok? ==> forall i :: 0 <= i < r.value ==> v.items[i] != Str(url)
    ensures (v.List? || v.Tuple?) ==> (r == Err(ValueError) <==> forall i :: 0 <= i < |v.items| ==> v.items[i] != Str(url))
    ensures (v.List? || v.Tuple?) ==> r.Ok? || r == Err(ValueError)
    ensures v.Str? ==> (r.Ok? <==> Contains(v.s, url)) && (r.Err? ==> r.error == ValueError)
    ensures !(v.List? || v.Tuple? || v.Str?) ==> r == Err(AttributeError)
  {
    match v
    case List(xs) => (match FirstIndex(xs, Str(url)) case Some(i) => Ok(i) case None => Err(ValueError))
    case Tuple(xs) => (match FirstIndex(xs, Str(url)) case Some(i) => Ok(i) case None => Err(ValueError))
    case Str(s) => (match FindSub(s, url) case Some(k) => Ok(k) case None => Err(ValueError))
    case _ => Err(AttributeError)
  }

  /** `try: index = item.get(field, []).index(url) except ValueError: index = 0`. */
  function PositionOrZero(item: Item, field: Field, url: string): Result<nat>
  {
    var found := IndexOf(GetOr(item, field, List([])), url);
    if found == Err(ValueError) then Ok(0) else found
  }

  /** The path `realestate/hl/{id}/{stem}-{index}.jpg`, written out. */
  function Layout(id: string, stem: string, index: nat): string
  {
    "realestate/hl/" + id + "/" + stem + "-" + NatString(index) + ".jpg"
  }

  /** `file_path` of both pipelines. The directory is the item's
      `external_id` when it is truthy and otherwise `digest(url)`, which
      stands for the first five hex digits of the URL's SHAKE-256 digest;
      the file is `{stem}-{index}.jpg`, `index` the URL's position in the
      item's `field` list or 0. A missing item raises AttributeError at the
      `item.get`, and an `external_id` that is not a `str` TypeError at the
      join. */
  function StoragePath(item: Option<Item>, url: string, digest: string -> string, field: Field, stem: string): Result<string>
  {
    var id := if item.Some? && Truthy(Get(item.value, ExternalId)) then item.value[ExternalId] else Str(digest(url));
    if item.None? then Err(AttributeError)
    else match PositionOrZero(item.value, field, url)
      case Err(e) => Err(e)
      case Ok(index) =>
        if !id.Str? then Err(TypeError)
        else Ok(Join(["realestate", "hl", id.s, stem + "-" + NatString(index) + ".jpg"]))
  }

  /** The file name of a path never holds a separator. */
  lemma FileNamePlain(stem: string, index: nat)
    requires Plain(stem)
    ensures Plain(stem + "-" + NatString(index) + ".jpg")
  {
    NatStringValue(index);
    var name := stem + "-" + NatString(index) + ".jpg";
    forall i | 0 <= i < |name| ensures name[i] != '/' {
      if i < |stem| {
        assert name[i] == stem[i];
      } else if |stem| < i < |stem| + 1 + |NatString(index)| {
        assert name[i] == NatString(index)[i - |stem| - 1];
      }
    }
  }

  /** Joining the four parts of a path with a separator-free id gives the
      layout. */
  lemma PathOfParts(id: string, stem: string, index: nat)
    requires Plain(id) && Plain(stem)
    ensures Join(["realestate", "hl", id, stem + "-" + NatString(index) + ".jpg"]) == Layout(id, stem, index)
  {
    FileNamePlain(stem, index);
    var name := stem + "-" + NatString(index) + ".jpg";
    JoinPlain4("realestate", "hl", id, name);
    assert "realestate" + "/" + "hl" + "/" + id + "/" + name == "realestate/hl/" + id + "/" + name;
    assert "realestate/hl/" + id + "/" + name == Layout(id, stem, index);
  }

  /** Whatever the id, a path that is built ends in `.jpg`. */
  lemma StoragePathJpg(item: Option<Item>, url: string, digest: string -> string, field: Field, stem: string)
    ensures StoragePath(item, url, digest, field, stem).Ok? ==> EndsWith(StoragePath(item, url, digest, field, stem).value, ".jpg")
  {
    var r := StoragePath(item, url, digest, field, stem);
    if r.Ok? {
      var index := PositionOrZero(item.value, field, url).value;
      var name := stem + "-" + NatString(index) + ".jpg";
      var id := if Truthy(Get(item.value, ExternalId)) then item.value[ExternalId] else Str(digest(url));
      var parts := ["realestate", "hl", id.s, name];
      JoinEndsWithLast(parts);
      var p := Join(parts);
      assert p[|p| - |name|..] == name;
      assert name[|name| - 4..] == ".jpg";
      assert p[|p| - 4..] == p[|p| - |name|..][|name| - 4..];
    }
  }

  /** With a separator-free id, the path is `realestate/hl/{id}/{stem}-{i}.jpg`
      where `i` is the first position of the URL in the item's list, or 0
      when the list does not hold it. */
  lemma StoragePathLayout(item: Item, url: string, digest: string -> string, field: Field, stem: string, id: string)
    requires Plain(id) && Plain(stem)
    requires Get(item, ExternalId) == Str(id)
    requires GetOr(item, field, List([])).List?
    ensures var xs := GetOr(item, field, List([])).items;
      StoragePath(Some(item), url, digest, field, stem)
        == Ok(Layout(id, stem, match FirstIndex(xs, Str(url)) case Some(i) => i case None => 0))
  {
    var xs := GetOr(item, field, List([])).items;
    var index := match FirstIndex(xs, Str(url)) case Some(i) => i case None => 0;
    assert PositionOrZero(item, field, url) == Ok(index);
    assert StoragePath(Some(item), url, digest, field, stem)
      == Ok(Join(["realestate", "hl", id, stem + "-" + NatString(index) + ".jpg"]));
    PathOfParts(id, stem, index);
  }

  /** A URL missing from the list is filed at index 0, on top of the file
      of the list's first URL. */
  lemma UnlistedCollidesWithFirst(item: Item, url: string, digest: string -> string, field: Field, stem: string)
    requires Truthy(Get(item, ExternalId)) && Get(item, ExternalId).Str?
    requires GetOr(item, field, List([])).List?
    requires var xs := GetOr(item, field, List([])).items;
      |xs| > 0 && xs[0].Str? && forall i :: 0 <= i < |xs| ==> xs[i] != Str(url)
    ensures var first := GetOr(item, field, List([])).items[0].s;
      && StoragePath(Some(item), url, digest, field, stem).Ok?
      && StoragePath(Some(item), url, digest, field, stem) == StoragePath(Some(item), first, digest, field, stem)
  {
  }

  /** Without a truthy `external_id` the directory is the URL's digest. */
  lemma DigestDirectory(item: Item, url: string, digest: string -> string, field: Field, stem: string)
    requires !Truthy(Get(item, ExternalId))
    requires Plain(digest(url)) && Plain(stem)
    requires GetOr(item, field, List([])).List?
    ensures var xs := GetOr(item, field, List([])).items;
      StoragePath(Some(item), url, digest, field, stem)
        == Ok(Layout(digest(url), stem, match FirstIndex(xs, Str(url)) case Some(i) => i case None => 0))
  {
    var xs := GetOr(item, field, List([])).items;
    var index := match FirstIndex(xs, Str(url)) case Some(i) => i case None => 0;
    assert PositionOrZero(item, field, url) == Ok(index);
    assert StoragePath(Some(item), url, digest, field, stem)
      == Ok(Join(["realestate", "hl", digest(url), stem + "-" + NatString(index) + ".jpg"]));
    PathOfParts(digest(url), stem, index);
  }

  // ---------------------------------------------------------------------
  // CDN URLs

  /** One `(ok, value)` pair of the `results` list: `value` is the file
      information dict of a download that succeeded, a failure otherwise. */
  datatype DownloadResult = DownloadResult(ok: bool, info: Value)

  /** `value['path']` of a result the loop keeps: ok, a dict, with a path. */
  function StoredPath(r: DownloadResult): Option<Value>
  {
    if r.ok && r.info.Dict? && "path" in r.info.entries then Some(r.info.entries["path"]) else None
  }

  /** `SETTINGS["NEWS_ACCOUNTS"][item["name"]]["image_cdn_domain"]`, the
      setting given as site name to CDN domain; a missing name or site is a
      KeyError, which both pipelines catch, so it is modelled as no domain. */
  function CdnDomain(item: Item, cdn: map<string, string>): Option<string>
  {
    if Name in item && item[Name].Str? && item[Name].s in cdn then Some(cdn[item[Name].s]) else None
  }

  /** `f"{cdn_domain}{value['path']}"` for each kept result, in order. */
  function CdnUrls(results: seq<DownloadResult>, domain: string): seq<string>
  {
    if results == [] then []
    else
      var last := results[|results| - 1];
      CdnUrls(results[..|results| - 1], domain)
        + (match StoredPath(last) case Some(p) => [domain + Render(p)] case None => [])
  }

  /** The URLs of two batches are those of the first followed by those of
      the second: result order is kept. */
  lemma {:induction false} CdnUrlsAppend(a: seq<DownloadResult>, b: seq<DownloadResult>, domain: string)
    ensures CdnUrls(a + b, domain) == CdnUrls(a, domain) + CdnUrls(b, domain)
    decreases |b|
  {
    if b == [] {
      assert a + b == a;
    } else {
      assert (a + b)[..|a + b| - 1] == a + b[..|b| - 1];
      CdnUrlsAppend(a, b[..|b| - 1], domain);
    }
  }

  /** There is at most one URL per result. */
  lemma {:induction false} CdnUrlsBound(results: seq<DownloadResult>, domain: string)
    ensures |CdnUrls(results, domain)| <= |results|
    decreases |results|
  {
    if results != [] {
      CdnUrlsBound(results[..|results| - 1], domain);
    }
  }

  /** When every result is kept, URL `i` is the domain followed by the path
      of result `i`. */
  lemma {:induction false} CdnUrlsAllKept(results: seq<DownloadResult>, domain: string)
    requires forall i :: 0 <= i < |results| ==> StoredPath(results[i]).Some?
    ensures |CdnUrls(results, domain)| == |results|
    ensures forall i :: 0 <= i < |results| ==> CdnUrls(results, domain)[i] == domain + Render(StoredPath(results[i]).value)
    decreases |results|
  {
    if results != [] {
      var init := results[..|results| - 1];
      var last := results[|results| - 1];
      assert StoredPath(last).Some?;
      assert forall i :: 0 <= i < |init| ==> init[i] == results[i];
      CdnUrlsAllKept(init, domain);
      var u := CdnUrls(init, domain);
      assert CdnUrls(results, domain) == u + [domain + Render(StoredPath(last).value)];
      forall i | 0 <= i < |results|
        ensures CdnUrls(results, domain)[i] == domain + Render(StoredPath(results[i]).value)
      {
        if i < |init| {
          assert init[i] == results[i];
        }
      }
    }
  }

  /** Failed results, and results without a path, give no URL. */
  lemma {:induction false} CdnUrlsNoneKept(results: seq<DownloadResult>, domain: string)
    requires forall i :: 0 <= i < |results| ==> StoredPath(results[i]).None?
    ensures CdnUrls(results, domain) == []
    decreases |results|
  {
    if results != [] {
      var init := results[..|results| - 1];
      assert forall i :: 0 <= i < |init| ==> init[i] == results[i];
      CdnUrlsNoneKept(init, domain);
    }
  }

  /** Every URL starts with the CDN domain. */
  lemma {:induction false} CdnUrlsPrefix(results: seq<DownloadResult>, domain: string)
    ensures forall u :: u in CdnUrls(results, domain) ==> |domain| <= |u| && u[..|domain|] == domain
    decreases |results|
  {
    if results != [] {
      CdnUrlsPrefix(results[..|results| - 1], domain);
    }
  }

  /** Three downloads of which the middle one failed give two URLs, in
      result order. */
  lemma ExampleOneFailed(p1: string, p3: string, failure: Value)
    ensures var ok1 := DownloadResult(true, Dict(map["path" := Str(p1)]));
      var failed := DownloadResult(false, failure);
      var ok3 := DownloadResult(true, Dict(map["path" := Str(p3)]));
      CdnUrls([ok1, failed, ok3], "https://cdn/") == ["https://cdn/" + p1, "https://cdn/" + p3]
  {
    var ok1 := DownloadResult(true, Dict(map["path" := Str(p1)]));
    var failed := DownloadResult(false, failure);
    var ok3 := DownloadResult(true, Dict(map["path" := Str(p3)]));
    assert StoredPath(ok1) == Some(Str(p1)) && StoredPath(ok3) == Some(Str(p3));
    assert [ok1][..0] == [];
    assert CdnUrls([ok1], "https://cdn/") == ["https://cdn/" + p1];
    assert [ok1, failed][..1] == [ok1];
    assert CdnUrls([ok1, failed], "https://cdn/") == ["https://cdn/" + p1];
    assert [ok1, failed, ok3][..2] == [ok1, failed];
  }

  // ---------------------------------------------------------------------
  // The list the URLs are appended to

  /** What the item's `target` list holds after the append loop: its prior
      value, `[]` when the key was missing, with the CDN URL of every stored
      file appended when the item has the `source` key, the CDN domain is
      configured for the item's site and `target` is a list. Otherwise the
      lookup or the `append` raises inside the `try`, and the error is only
      logged. */
  function AppendedList(item: Item, target: Field, source: Field, results: seq<DownloadResult>, cdn: map<string, string>): Value
  {
    var prior := GetOr(item, target, List([]));
    var domain := CdnDomain(item, cdn);
    if source in item && domain.Some? && prior.List? then
      List(prior.items + StrList(CdnUrls(results, domain.value)).items)
    else prior
  }

  /** One more result adds its URL when it is kept, and nothing otherwise. */
  lemma CdnUrlsStep(results: seq<DownloadResult>, i: nat, domain: string)
    requires i < |results|
    ensures StoredPath(results[i]).Some? ==>
      CdnUrls(results[..i + 1], domain) == CdnUrls(results[..i], domain) + [domain + Render(StoredPath(results[i]).value)]
    ensures StoredPath(results[i]).None? ==> CdnUrls(results[..i + 1], domain) == CdnUrls(results[..i], domain)
  {
    var prefix := results[..i + 1];
    assert prefix[..i] == results[..i] && prefix[i] == results[i];
  }

  /** One more result appends its URL when it is kept and the list is
      being appended to, and changes nothing otherwise. */
  lemma AppendedListStep(item: Item, target: Field, source: Field, results: seq<DownloadResult>, i: nat, cdn: map<string, string>)
    requires i < |results|
    ensures var prior := GetOr(item, target, List([]));
      !(source in item && CdnDomain(item, cdn).Some? && prior.List?) ==>
        && AppendedList(item, target, source, results[..i], cdn) == prior
        && AppendedList(item, target, source, results[..i + 1], cdn) == prior
    ensures var prior := GetOr(item, target, List([]));
      var domain := CdnDomain(item, cdn);
      var stored := StoredPath(results[i]);
      source in item && domain.Some? && prior.List? ==>
        && AppendedList(item, target, source, results[..i], cdn).List?
        && AppendedList(item, target, source, results[..i + 1], cdn).items
           == AppendedList(item, target, source, results[..i], cdn).items
              + (if stored.Some? then [Str(domain.value + Render(stored.value))] else [])
  {
    var prior := GetOr(item, target, List([]));
    var domain := CdnDomain(item, cdn);
    if source in item && domain.Some? && prior.List? {
      CdnUrlsStep(results, i, domain.value);
      var stored := StoredPath(results[i]);
      var before := StrList(CdnUrls(results[..i], domain.value)).items;
      if stored.Some? {
        var url := domain.value + Render(stored.value);
        StrListAppend(CdnUrls(results[..i], domain.value), [url]);
        assert StrList([url]).items == [Str(url)];
        assert prior.items + StrList(CdnUrls(results[..i + 1], domain.value)).items == (prior.items + before) + [Str(url)];
      } else {
        assert prior.items + StrList(CdnUrls(results[..i + 1], domain.value)).items == (prior.items + before) + [];
      }
    }
  }

  /** Before any result the list is the prior value, or `[]`. */
  lemma AppendedListEmpty(item: Item, target: Field, source: Field, cdn: map<string, string>)
    ensures AppendedList(item, target, source, [], cdn) == GetOr(item, target, List([]))
  {
    var prior := GetOr(item, target, List([]));
    if prior.List? {
      assert prior.items + StrList([]).items == prior.items;
    }
  }

  /** When the prior value is a list, or the key is missing, afterwards the
      key holds a list whose prefix is the prior contents: nothing is
      removed or reordered. */
  lemma AppendedListGrows(item: Item, target: Field, source: Field, results: seq<DownloadResult>, cdn: map<string, string>)
    requires target in item ==> item[target].List?
    ensures AppendedList(item, target, source, results, cdn).List?
    ensures var prior := GetOr(item, target, List([])).items;
      var after := AppendedList(item, target, source, results, cdn).items;
      |prior| <= |after| && after[..|prior|] == prior
  {
  }

  /** What is appended is exactly the CDN URLs of the stored files, in
      result order. */
  lemma AppendedListTail(item: Item, target: Field, source: Field, results: seq<DownloadResult>, cdn: map<string, string>)
    requires source in item && CdnDomain(item, cdn).Some?
    requires target in item ==> item[target].List?
    ensures var prior := GetOr(item, target, List([])).items;
      var after := AppendedList(item, target, source, results, cdn).items;
      after[|prior|..] == StrList(CdnUrls(results, CdnDomain(item, cdn).value)).items
  {
  }

  /** Without the `source` key, or without a CDN domain for the item's
      site, nothing is appended. */
  lemma NothingAppended(item: Item, target: Field, source: Field, results: seq<DownloadResult>, cdn: map<string, string>)
    requires source !in item || CdnDomain(item, cdn).None?
    ensures AppendedList(item, target, source, results, cdn) == GetOr(item, target, List([]))
  {
  }

  /** Batches add up: the list after `a + b` is the list after `a` with the
      URLs of `b` appended. */
  lemma AppendedListConcat(item: Item, target: Field, source: Field, a: seq<DownloadResult>, b: seq<DownloadResult>, cdn: map<string, string>)
    requires source in item && CdnDomain(item, cdn).Some?
    requires target in item ==> item[target].List?
    ensures var d := CdnDomain(item, cdn).value;
      AppendedList(item, target, source, a + b, cdn).items
        == AppendedList(item, target, source, a, cdn).items + StrList(CdnUrls(b, d)).items
  {
    var d := CdnDomain(item, cdn).value;
    CdnUrlsAppend(a, b, d);
    var prior := GetOr(item, target, List([])).items;
    var ua := StrList(CdnUrls(a, d)).items;
    var ub := StrList(CdnUrls(b, d)).items;
    StrListAppend(CdnUrls(a, d), CdnUrls(b, d));
    assert prior + (ua + ub) == (prior + ua) + ub;
  }
}
