/**
 * `HlDocumentsPipeline` (realestate_scrapy/pipelines/documents_pipeline.py):
 * documents are stored as `realestate/hl/{external_id}/doc-{index}.jpg`; once
 * stored, each blob is marked to open inline and the item's `pdf_document`
 * list receives its CDN URL.
 */
module HlDocumentsPipeline {
  import opened Wrappers
  import opened PyStr
  import opened PyValue
  import opened PosixPath
  import opened StoredFiles

  /** `file_path(request, item=item)`: `digest` stands for the SHAKE-256
      prefix of the URL (lines 24-25). */
  function FilePath(item: Option<Item>, url: string, digest: string -> string): (r: Result<string>)
    ensures item.None? ==> r == Err(AttributeError)
  {
    StoragePath(item, url, digest, OriginPdfDocument, "doc")
  }

  /** The document path names the id and the 0-based position of the URL
      among `origin_pdf_document`, 0 when it is not there; whatever the
      document, the extension is `.jpg`. */
  lemma FilePathLayout(item: Item, url: string, digest: string -> string, id: string)
    requires Plain(id) && Get(item, ExternalId) == Str(id)
    requires GetOr(item, OriginPdfDocument, List([])).List?
    ensures var xs := GetOr(item, OriginPdfDocument, List([])).items;
      FilePath(Some(item), url, digest)
        == Ok(Layout(id, "doc", match FirstIndex(xs, Str(url)) case Some(i) => i case None => 0))
    ensures FilePath(Some(item), url, digest).Ok? && EndsWith(FilePath(Some(item), url, digest).value, ".jpg")
  {
    StoragePathLayout(item, url, digest, OriginPdfDocument, "doc", id);
    StoragePathJpg(Some(item), url, digest, OriginPdfDocument, "doc");
  }

  /** The metadata written to a stored blob (lines 66-71); `applied` says
      whether `blob.patch()` went through, which only decides a log line. */
  datatype BlobPatch = BlobPatch(bucket: string, name: string, disposition: string, contentType: string, applied: bool)

  /** `f'inline; filename="{basename}"'`. */
  function Disposition(path: string): string
  {
    "inline; filename=\"" + Basename(path) + "\""
  }

  /** Every kept result carries a `str` path. Any other value makes
      `bucket.blob` or `os.path.basename` raise an error that nothing
      catches; the model names it TypeError. */
  predicate PathsAreStr(results: seq<DownloadResult>)
  {
    forall i :: 0 <= i < |results| && StoredPath(results[i]).Some? ==> StoredPath(results[i]).value.Str?
  }

  /** The patches sent for the kept results, in order; `patched(i)` is the
      outcome of the patch for result `i`. */
  function Patches(results: seq<DownloadResult>, bucket: string, patched: nat -> bool): seq<BlobPatch>
    requires PathsAreStr(results)
  {
    if results == [] then []
    else
      var i := |results| - 1;
      assert PathsAreStr(results[..i]) by {
        forall k | 0 <= k < i ensures results[..i][k] == results[k] { }
      }
      Patches(results[..i], bucket, patched)
        + match StoredPath(results[i])
          case Some(p) => [BlobPatch(bucket, p.s, Disposition(p.s), "application/pdf", patched(i))]
          case None => []
  }

  /** One more result whose path, if any, is a `str` adds its patch. */
  lemma PatchesStep(results: seq<DownloadResult>, i: nat, bucket: string, patched: nat -> bool)
    requires i < |results| && PathsAreStr(results[..i])
    requires StoredPath(results[i]).Some? ==> StoredPath(results[i]).value.Str?
    ensures PathsAreStr(results[..i + 1])
    ensures Patches(results[..i + 1], bucket, patched) == Patches(results[..i], bucket, patched)
      + match StoredPath(results[i])
        case Some(p) => [BlobPatch(bucket, p.s, Disposition(p.s), "application/pdf", patched(i))]
        case None => []
  {
    var prefix := results[..i + 1];
    assert prefix[..i] == results[..i] && prefix[i] == results[i];
    forall k | 0 <= k < i + 1 && StoredPath(prefix[k]).Some?
      ensures StoredPath(prefix[k]).value.Str?
    {
      if k < i {
        assert prefix[k] == results[..i][k];
      }
    }
  }

  /** What `item_completed` returns: the item with `pdf_document` present
      (lines 47-48); unchanged otherwise when no bucket is configured; with
      the CDN URLs of the stored documents appended when it has
      `origin_pdf_document`; an uncaught error, named TypeError here, when a
      stored path is not a `str`. */
  function DocumentsAfter(item: Item, results: seq<DownloadResult>, cdn: map<string, string>, bucket: Option<string>): Result<Item>
  {
    if bucket.None? || bucket.value == "" then Ok(item[PdfDocument := GetOr(item, PdfDocument, List([]))])
    else if OriginPdfDocument in item && !PathsAreStr(results) then Err(TypeError)
    else Ok(item[PdfDocument := AppendedList(item, PdfDocument, OriginPdfDocument, results, cdn)])
  }

  /** `item_completed(results, item, info)`, the item passed by value, the
      bucket name given as the setting and the patch outcomes as `patched`.
      The outcome of a patch never changes the item. */
  method ItemCompleted(item: Item, results: seq<DownloadResult>, cdn: map<string, string>,
                       bucket: Option<string>, patched: nat -> bool)
    returns (r: Result<Item>, patches: seq<BlobPatch>)
    ensures r == DocumentsAfter(item, results, cdn, bucket)
    ensures bucket.None? || bucket.value == "" || OriginPdfDocument !in item ==> patches == []
    ensures r.Ok? && bucket.Some? && bucket.value != "" && OriginPdfDocument in item ==>
      PathsAreStr(results) && patches == Patches(results, bucket.value, patched)
  {
    var out := item;
    if PdfDocument !in out {
      out := out[PdfDocument := List([])];
    }
    patches := [];
    assert out == item[PdfDocument := GetOr(item, PdfDocument, List([]))];
    if bucket.None? || bucket.value == "" {
      return Ok(out), patches;
    }
    AppendedListEmpty(item, PdfDocument, OriginPdfDocument, cdn);
    assert results[..0] == [];
    if OriginPdfDocument in out {
      // `item["pdf_document"]` is the list the loop appends to; the item's
      // other keys, its `name` among them, do not change in the loop.
      var docs := out[PdfDocument];
      assert CdnDomain(out, cdn) == CdnDomain(item, cdn);
      for i := 0 to |results|
        invariant docs == AppendedList(item, PdfDocument, OriginPdfDocument, results[..i], cdn)
        invariant PathsAreStr(results[..i])
        invariant patches == Patches(results[..i], bucket.value, patched)
      {
        AppendedListStep(item, PdfDocument, OriginPdfDocument, results, i, cdn);
        var stored := StoredPath(results[i]);
        if stored.Some? && !stored.value.Str? {
          assert OriginPdfDocument in item && !PathsAreStr(results);
          return Err(TypeError), patches;
        }
        PatchesStep(results, i, bucket.value, patched);
        if stored.Some? {
          var name := stored.value.s;
          patches := patches + [BlobPatch(bucket.value, name, Disposition(name), "application/pdf", patched(i))];
          var domain := CdnDomain(out, cdn);
          if domain.Some? && docs.List? {
            docs := List(docs.items + [Str(domain.value + Render(stored.value))]);
          }
        }
      }
      assert results[..|results|] == results;
      assert PathsAreStr(results);
      out := out[PdfDocument := docs];
      assert out == item[PdfDocument := AppendedList(item, PdfDocument, OriginPdfDocument, results, cdn)];
    } else {
      NothingAppended(item, PdfDocument, OriginPdfDocument, results, cdn);
    }
    r := Ok(out);
  }

  /** A document filed by this pipeline opens inline under its own file
      name, `doc-{index}.jpg`. */
  lemma DispositionOfLayout(id: string, index: nat)
    ensures Disposition(Layout(id, "doc", index)) == "inline; filename=\"doc-" + NatString(index) + ".jpg\""
  {
    var name := "doc" + "-" + NatString(index) + ".jpg";
    FileNamePlain("doc", index);
    assert Layout(id, "doc", index) == ("realestate/hl/" + id) + "/" + name;
    BasenameOfLast("realestate/hl/" + id, name);
    assert "doc" + "-" == "doc-";
    assert name == "doc-" + NatString(index) + ".jpg";
  }

  /** Without a bucket name the item only gains an empty `pdf_document`
      when it had none; every other key is left as it was. */
  lemma NoBucketNoUrls(item: Item, results: seq<DownloadResult>, cdn: map<string, string>, bucket: Option<string>)
    requires bucket.None? || bucket.value == ""
    ensures DocumentsAfter(item, results, cdn, bucket).Ok?
    ensures var out := DocumentsAfter(item, results, cdn, bucket).value;
      && out[PdfDocument] == (if PdfDocument in item then item[PdfDocument] else List([]))
      && forall f :: f != PdfDocument ==> (f in out <==> f in item) && (f in item ==> out[f] == item[f])
  {
  }

  /** With a bucket and stored paths that are strings, the URLs appended
      are those of the stored documents, in result order. */
  lemma StoredDocumentsAppended(item: Item, results: seq<DownloadResult>, cdn: map<string, string>, bucket: string)
    requires bucket != "" && OriginPdfDocument in item && PathsAreStr(results)
    requires CdnDomain(item, cdn).Some?
    requires PdfDocument in item ==> item[PdfDocument].List?
    ensures DocumentsAfter(item, results, cdn, Some(bucket)).Ok?
    ensures var prior := GetOr(item, PdfDocument, List([])).items;
      var after := DocumentsAfter(item, results, cdn, Some(bucket)).value[PdfDocument];
      && after.List? && |prior| <= |after.items| && after.items[..|prior|] == prior
      && after.items[|prior|..] == StrList(CdnUrls(results, CdnDomain(item, cdn).value)).items
  {
    AppendedListGrows(item, PdfDocument, OriginPdfDocument, results, cdn);
    AppendedListTail(item, PdfDocument, OriginPdfDocument, results, cdn);
  }
}
