/**
 * The sorting half of `parse_gallery` of the homely spider: each `img` of the
 * revealed gallery goes to the photos or the floor plans by the text of the
 * nearest `h2` before it, or is dropped.
 */
module HomelyGallery {
  import opened Wrappers
  import opened PyStr

  /** One `img` of the gallery as the selectors see it: its `src`, and the
      normalised text of the closest preceding `h2`, None when there is no
      `h2` before it. */
  datatype GalleryImage = GalleryImage(src: Option<string>, heading: Option<string>)

  /** What the browser shows after the gallery button is pressed: either the
      reveal fails (any exception while clicking or waiting) or the images
      of the vertical gallery, in document order. */
  datatype GalleryPage = RevealFailed | Revealed(images: seq<GalleryImage>)

  datatype Kind = Photo | Plan | Skipped

  /** An image without `src`, without a heading or under an empty heading is
      dropped; "Floor plan" in the heading is tested before "Photo". */
  function KindOf(img: GalleryImage): (k: Kind)
    ensures k != Skipped ==> img.src.Some? && img.src.value != ""
    ensures k == Plan <==> img.src.Some? && img.src.value != "" && img.heading.Some? && Contains(img.heading.value, "Floor plan")
    ensures k == Photo <==>
      (img.src.Some? && img.src.value != "" && img.heading.Some?
       && !Contains(img.heading.value, "Floor plan") && Contains(img.heading.value, "Photo"))
  {
    if img.src.None? || img.src.value == "" then Skipped
    else if img.heading.None? || img.heading.value == "" then Skipped
    else if Contains(img.heading.value, "Floor plan") then Plan
    else if Contains(img.heading.value, "Photo") || Contains(img.heading.value, "Photos") then
      (if Contains(img.heading.value, "Photos") then PhotosHoldsPhoto(img.heading.value); Photo else Photo)
    else Skipped
  }

  /** The `src` of every image of kind `k`, in document order. */
  function Collected(imgs: seq<GalleryImage>, k: Kind): (r: seq<string>)
    requires k != Skipped
    ensures |r| <= |imgs|
  {
    if imgs == [] then []
    else
      var last := imgs[|imgs| - 1];
      Collected(imgs[..|imgs| - 1], k) + (if KindOf(last) == k then [last.src.value] else [])
  }

  /** `parse_gallery`: the photos and the floor plans, or two empty lists
      when the gallery cannot be revealed. */
  method ParseGallery(page: GalleryPage) returns (images: seq<string>, floorplan: seq<string>)
    ensures page.RevealFailed? ==> images == [] && floorplan == []
    ensures page.Revealed? ==> images == Collected(page.images, Photo)
    ensures page.Revealed? ==> floorplan == Collected(page.images, Plan)
  {
    if page.RevealFailed? {
      return [], [];
    }
    var imgs := page.images;
    images, floorplan := [], [];
    for i := 0 to |imgs|
      invariant images == Collected(imgs[..i], Photo)
      invariant floorplan == Collected(imgs[..i], Plan)
    {
      assert imgs[..i + 1][..i] == imgs[..i];
      var img := imgs[i];
      if img.src.None? || img.src.value == "" {
        continue;
      }
      if img.heading.Some? && img.heading.value != "" {
        var text := img.heading.value;
        if Contains(text, "Floor plan") {
          floorplan := floorplan + [img.src.value];
        } else if Contains(text, "Photo") || Contains(text, "Photos") {
          images := images + [img.src.value];
        }
      }
    }
    assert imgs[..|imgs|] == imgs;
  }

  /** A URL is collected exactly when some image of that kind has it as `src`. */
  lemma {:induction false} CollectedMember(imgs: seq<GalleryImage>, k: Kind, x: string)
    requires k != Skipped
    ensures x in Collected(imgs, k) <==> exists j :: 0 <= j < |imgs| && KindOf(imgs[j]) == k && imgs[j].src == Some(x)
    decreases |imgs|
  {
    if imgs != [] {
      var init := imgs[..|imgs| - 1];
      var last := imgs[|imgs| - 1];
      CollectedMember(init, k, x);
      assert Collected(imgs, k) == Collected(init, k) + (if KindOf(last) == k then [last.src.value] else []);
      if x in Collected(imgs, k) {
        if x in Collected(init, k) {
          var j :| 0 <= j < |init| && KindOf(init[j]) == k && init[j].src == Some(x);
          assert imgs[j] == init[j];
        } else {
          assert KindOf(imgs[|imgs| - 1]) == k && imgs[|imgs| - 1].src == Some(x);
        }
      } else {
        forall j | 0 <= j < |imgs|
          ensures !(KindOf(imgs[j]) == k && imgs[j].src == Some(x))
        {
          if j < |imgs| - 1 {
            assert imgs[j] == init[j];
          }
        }
      }
    }
  }

  /** Sorting a longer page sorts its parts independently. */
  lemma {:induction false} CollectedAppend(a: seq<GalleryImage>, b: seq<GalleryImage>, k: Kind)
    requires k != Skipped
    ensures Collected(a + b, k) == Collected(a, k) + Collected(b, k)
    decreases |b|
  {
    if b == [] {
      assert a + b == a;
    } else {
      var init := b[..|b| - 1];
      assert (a + b)[..|a + b| - 1] == a + init;
      CollectedAppend(a, init, k);
    }
  }

  /** No image is both a photo and a floor plan, so the two lists together
      are never longer than the gallery. */
  lemma {:induction false} CollectedTotal(imgs: seq<GalleryImage>)
    ensures |Collected(imgs, Photo)| + |Collected(imgs, Plan)| <= |imgs|
    decreases |imgs|
  {
    if imgs != [] {
      CollectedTotal(imgs[..|imgs| - 1]);
    }
  }

  /** Testing for "Photos" after "Photo" adds nothing: a heading that holds
      "Photos" holds "Photo". */
  lemma PhotosHoldsPhoto(h: string)
    requires Contains(h, "Photos")
    ensures Contains(h, "Photo")
  {
    var k := FindSub(h, "Photos").value;
    assert h[k..k + 6][..5] == h[k..k + 5];
    assert OccursAt(h, "Photo", k);
  }

  /** Under a heading naming both, such as "Photos and Floor plan", an image
      is a floor plan and not a photo. */
  lemma FloorPlanBeforePhoto(imgs: seq<GalleryImage>, j: nat)
    requires j < |imgs| && imgs[j].src.Some? && imgs[j].src.value != ""
    requires imgs[j].heading.Some? && Contains(imgs[j].heading.value, "Floor plan")
    ensures imgs[j].src.value in Collected(imgs, Plan)
  {
    CollectedMember(imgs, Plan, imgs[j].src.value);
  }
}
