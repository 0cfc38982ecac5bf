/**
 * `HlImagesPipeline` (realestate_scrapy/pipelines/images_pipeline.py): gallery
 * images are stored as `realestate/hl/{external_id}/gallery-{index}.jpg`, and
 * once they are stored the item's `images` list receives the CDN URL of each.
 */
module HlImagesPipeline {
  import opened Wrappers
  import opened PyStr
  import opened PyValue
  import opened StoredFiles

  /** `file_path(request, item=item)`: `digest` stands for the SHAKE-256
      prefix of the URL (lines 26-27). */
  function FilePath(item: Option<Item>, url: string, digest: string -> string): (r: Result<string>)
    ensures item.None? ==> r == Err(AttributeError)
  {
    StoragePath(item, url, digest, OriginImages, "gallery")
  }

  /** The images path names the id and the 0-based position of the URL
      among `origin_images`, 0 when it is not there. */
  lemma FilePathLayout(item: Item, url: string, digest: string -> string, id: string)
    requires PosixPath.Plain(id) && Get(item, ExternalId) == Str(id)
    requires GetOr(item, OriginImages, List([])).List?
    ensures var xs := GetOr(item, OriginImages, List([])).items;
      FilePath(Some(item), url, digest)
        == Ok(Layout(id, "gallery", match FirstIndex(xs, Str(url)) case Some(i) => i case None => 0))
  {
    StoragePathLayout(item, url, digest, OriginImages, "gallery", id);
  }

  /** Equal URLs within one item get equal paths, and the URL at position
      `k` (its first occurrence) is filed as `gallery-{k}.jpg`. */
  lemma FilePathOfPosition(item: Item, digest: string -> string, id: string, k: nat)
    requires PosixPath.Plain(id) && Get(item, ExternalId) == Str(id)
    requires GetOr(item, OriginImages, List([])).List?
    requires var xs := GetOr(item, OriginImages, List([])).items;
      k < |xs| && xs[k].Str? && forall i :: 0 <= i < k ==> xs[i] != xs[k]
    ensures var url := GetOr(item, OriginImages, List([])).items[k].s;
      FilePath(Some(item), url, digest) == Ok(Layout(id, "gallery", k))
  {
    var xs := GetOr(item, OriginImages, List([])).items;
    var url := xs[k].s;
    FilePathLayout(item, url, digest, id);
    assert FirstIndex(xs, Str(url)) == Some(k);
  }

  /** What `images` holds after `item_completed`: the CDN URLs of the
      stored files appended to its prior value, or to the `[]` of
      `setdefault` (line 57), when the item has `origin_images`. */
  function ImagesAfter(item: Item, results: seq<DownloadResult>, cdn: map<string, string>): Value
  {
    AppendedList(item, Images, OriginImages, results, cdn)
  }

  /** `item_completed(results, item, info)`, the item passed by value: the
      only key it changes is `images`. */
  method ItemCompleted(item: Item, results: seq<DownloadResult>, cdn: map<string, string>) returns (out: Item)
    ensures out == item[Images := ImagesAfter(item, results, cdn)]
  {
    out := item;
    if Images !in out {
      out := out[Images := List([])];
    }
    AppendedListEmpty(item, Images, OriginImages, cdn);
    assert results[..0] == [];
    if OriginImages in out {
      for i := 0 to |results|
        invariant CdnDomain(out, cdn) == CdnDomain(item, cdn)
        invariant out == item[Images := ImagesAfter(item, results[..i], cdn)]
      {
        AppendedListStep(item, Images, OriginImages, results, i, cdn);
        var stored := StoredPath(results[i]);
        var domain := CdnDomain(out, cdn);
        var images := out[Images];
        if stored.Some? && domain.Some? && images.List? {
          out := out[Images := List(images.items + [Str(domain.value + Render(stored.value))])];
        } else {
          assert ImagesAfter(item, results[..i + 1], cdn) == images;
        }
      }
      assert results[..|results|] == results;
    } else {
      NothingAppended(item, Images, OriginImages, results, cdn);
    }
  }

  /** Three results of which the middle one failed append two URLs, in
      result order, after the images already there. */
  lemma ExampleOneFailed(item: Item, p1: string, p3: string, failure: Value)
    requires OriginImages in item && Images !in item
    requires Name in item && item[Name] == Str("homely")
    ensures var results := [
        DownloadResult(true, Dict(map["path" := Str(p1)])),
        DownloadResult(false, failure),
        DownloadResult(true, Dict(map["path" := Str(p3)]))];
      ImagesAfter(item, results, map["homely" := "https://cdn/"])
        == List([Str("https://cdn/" + p1), Str("https://cdn/" + p3)])
  {
    StoredFiles.ExampleOneFailed(p1, p3, failure);
    var urls := ["https://cdn/" + p1, "https://cdn/" + p3];
    assert StrList(urls).items == [Str(urls[0]), Str(urls[1])];
  }
}
