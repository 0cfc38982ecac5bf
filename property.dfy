/**
 * `parse_property` of the homely spider, after the browser has rendered the
 * page: the strings its selectors return are the input, the item dict it
 * yields (or the exception it raises) is the output.
 */
module HomelySpider {
  import opened Wrappers
  import opened PyStr
  import opened PyValue
  import CommonUtils
  import HomelyPrice
  import HomelyPostcode
  import HomelyFields
  import opened HomelyGallery

  /** The spider's `name`, copied into every item. */
  const SpiderName: string := "homely"

  /** What the selectors of a listing page return. `area`, `propertyType`,
      `description` and `councilRates` are read with a default ('' or
      'House'), so only the others can be missing. */
  datatype PropertyPage = PropertyPage(
    url: string,
    address: Option<string>,
    city: Option<string>,
    priceText: Option<string>,
    bedrooms: Option<string>,
    bathrooms: Option<string>,
    cars: Option<string>,
    area: Option<string>,
    areaFallback: Option<string>,
    propertyType: string,
    description: string,
    councilRates: string,
    documentLink: Option<string>,
    center: Option<string>,
    agentName: Option<string>,
    agentOffice: Option<string>,
    agentProfile: Option<string>,
    agentPhoneHref: Option<string>,
    gallery: GalleryPage)

  /** What one call does: yield one item, yield nothing, or raise. */
  datatype Outcome = Yielded(item: Item) | Dropped | Raised(error: PyError)

  function IntOrNull(o: Option<int>): Value
  {
    match o
    case Some(i) => Int(i)
    case None => Null
  }

  /** `p if p else 0` for a parsed price. */
  function PriceField(p: Option<int>): (v: Value)
    ensures v.Int? && (p.Some? ==> v == Int(p.value)) && (p.None? ==> v == Int(0))
  {
    match p
    case Some(n) => if n != 0 then Int(n) else Int(0)
    case None => Int(0)
  }

  /** The agent's phone: the `tel:` link with every "tel:" removed, stripped. */
  function PhoneOfHref(href: Option<string>): Option<string>
  {
    match href
    case Some(h) => if h == "" then None else Some(Strip(ReplaceAll(h, "tel:", "")))
    case None => None
  }

  /** The keys of the item dict of lines 260-295: every field but the
      price, the features and the agent fields the page does not show. */
  predicate IsSpiderField(f: Field)
  {
    !(|| f.Price? || f.Features? || f.AgentEmail? || f.AgentBio?
      || f.AgentProfileImage? || f.AgentSocialMedia?
      || f.CreatedAt? || f.UpdatedAt? || f.AgentId?)
  }

  /** The value the item dict of lines 260-295 gives field `f`, before the
      gallery is read. */
  function SpiderValue(page: PropertyPage, now: int, latitude: Value, longitude: Value, f: Field): Value
  {
    match f
    case Name => Str(SpiderName)
    case Url => Str(page.url)
    case ExternalId => OptStr(CommonUtils.ExtractExternalId(page.url))
    case Address => OptStr(HomelyFields.FullAddress(page.address, page.city))
    case Title => OptStr(HomelyFields.FullAddress(page.address, page.city))
    case Suburb => OptStr(page.city)
    case State => OptStr(page.city)
    case Postcode => OptStr(HomelyPostcode.ParsePostcode(page.city))
    case PriceText => OptStr(page.priceText)
    case LowerPrice => PriceField(HomelyPrice.ParsePrice(page.priceText).0)
    case UpperPrice => PriceField(HomelyPrice.ParsePrice(page.priceText).1)
    case Bedrooms => IntOrNull(HomelyFields.CoerceCount(page.bedrooms))
    case Bathrooms => IntOrNull(HomelyFields.CoerceCount(page.bathrooms))
    case CarSpaces => IntOrNull(HomelyFields.CoerceCount(page.cars))
    case PropertyType => Str(page.propertyType)
    case Description => Str(page.description)
    case CouncilRates => Str(Strip(page.councilRates))
    case LandArea => Int(HomelyFields.LandArea(page.area, page.areaFallback))
    case PdfDocument => List([])
    case OriginPdfDocument => List([OptStr(HomelyFields.StripIfSet(page.documentLink))])
    case Latitude => latitude
    case Longitude => longitude
    case Images => List([])
    case OriginImages => List([])
    case FloorPlan => List([])
    case OriginFloorPlan => List([])
    case PublishDate => Time(now)
    case AgentName => OptStr(HomelyFields.StripIfSet(page.agentName))
    case AgentPhone => OptStr(PhoneOfHref(page.agentPhoneHref))
    case AgentAgency => OptStr(HomelyFields.StripIfSet(page.agentOffice))
    case AgentProfileUrl => OptStr(HomelyFields.StripIfSet(page.agentProfile))
    case _ => Null
  }

  /** The item dict of lines 260-295, before the gallery is read. */
  function BaseItem(page: PropertyPage, now: int, latitude: Value, longitude: Value): (item: Item)
    ensures forall f :: f in item <==> IsSpiderField(f)
  {
    map f: Field | IsSpiderField(f) :: SpiderValue(page, now, latitude, longitude, f)
  }

  /** The photos followed by the floor plans, or nothing when the reveal
      fails. */
  function GalleryUrls(g: GalleryPage): seq<string>
  {
    match g
    case RevealFailed => []
    case Revealed(imgs) => Collected(imgs, Photo) + Collected(imgs, Plan)
  }

  /** The outcome of one `parse_property` call, `now` standing for
      `datetime.utcnow()`. */
  function PropertyOutcome(page: PropertyPage, now: int): Outcome
  {
    var coords := HomelyFields.Coordinates(page.center);
    if coords.Err? then Raised(coords.error)
    else Gate(PageItem(page, now, coords.value))
  }

  /** The finished item: the base item with the gallery's URLs. */
  function PageItem(page: PropertyPage, now: int, coords: (Value, Value)): Item
  {
    BaseItem(page, now, coords.0, coords.1)[OriginImages := StrList(GalleryUrls(page.gallery))]
  }

  /** Lines 309-312: only an item with an id is yielded. */
  function Gate(item: Item): (r: Outcome)
    requires ExternalId in item
    ensures r.Yielded? <==> item[ExternalId] != Null
    ensures r.Yielded? ==> r.item == item
  {
    if item[ExternalId] != Null then Yielded(item) else Dropped
  }

  /** `parse_property`: build the item, read the gallery, merge its two
      lists into `origin_images`, and yield the item only if it has an id. */
  method ParseProperty(page: PropertyPage, now: int) returns (r: Outcome)
    ensures r == PropertyOutcome(page, now)
  {
    var coords := HomelyFields.Coordinates(page.center);
    if coords.Err? {
      return Raised(coords.error);
    }
    var item := BaseItem(page, now, coords.value.0, coords.value.1);
    var photos, floorplans := ParseGallery(page.gallery);
    item := item[OriginImages := StrList(photos + floorplans)];
    if item[ExternalId] != Null {
      r := Yielded(item);
    } else {
      r := Dropped;
    }
  }

  /** Each key of the item holds what lines 260-306 put there. */
  lemma PageItemAt(page: PropertyPage, now: int, coords: (Value, Value), f: Field)
    requires IsSpiderField(f)
    ensures f in PageItem(page, now, coords)
    ensures PageItem(page, now, coords)[f] ==
      if f == OriginImages then StrList(GalleryUrls(page.gallery)) else SpiderValue(page, now, coords.0, coords.1, f)
  {
  }

  /** An item is yielded exactly when the coordinates unpack and the URL has
      an id; a URL without one yields nothing. */
  lemma YieldedIffId(page: PropertyPage, now: int)
    ensures PropertyOutcome(page, now).Yielded? <==>
      HomelyFields.Coordinates(page.center).Ok? && CommonUtils.ExtractExternalId(page.url).Some?
    ensures PropertyOutcome(page, now) == Dropped <==>
      HomelyFields.Coordinates(page.center).Ok? && CommonUtils.ExtractExternalId(page.url).None?
  {
  }

  /** A page without map coordinates raises, however good its other fields:
      the item literal reads `latitude`, which was never assigned. */
  lemma NoCoordinatesRaises(page: PropertyPage, now: int)
    requires page.center.None? || page.center == Some("")
    ensures PropertyOutcome(page, now) == Raised(UnboundLocalError("latitude"))
  {
  }

  /** The item a call yields, with the coordinates it was built from. */
  lemma YieldedItem(page: PropertyPage, now: int) returns (coords: (Value, Value))
    requires PropertyOutcome(page, now).Yielded?
    ensures HomelyFields.Coordinates(page.center) == Ok(coords)
    ensures PropertyOutcome(page, now).item == PageItem(page, now, coords)
  {
    coords := HomelyFields.Coordinates(page.center).value;
  }

  /** The yielded item carries the URL's id, and that id closes the URL. */
  lemma YieldedId(page: PropertyPage, now: int)
    requires PropertyOutcome(page, now).Yielded?
    ensures CommonUtils.ExtractExternalId(page.url).Some?
    ensures ExternalId in PropertyOutcome(page, now).item
    ensures PropertyOutcome(page, now).item[ExternalId] == Str(CommonUtils.ExtractExternalId(page.url).value)
    ensures CommonUtils.ClosesUrl(page.url, CommonUtils.ExtractExternalId(page.url).value)
  {
    YieldedIffId(page, now);
    CommonUtils.ExtractExternalIdShape(page.url);
    var coords := YieldedItem(page, now);
  }

  /** The yielded item's lower price is the parsed lower bound, 0 when the
      text gives none. */
  lemma YieldedLowerPrice(page: PropertyPage, now: int)
    requires PropertyOutcome(page, now).Yielded?
    ensures LowerPrice in PropertyOutcome(page, now).item
    ensures var lower := HomelyPrice.ParsePrice(page.priceText).0;
      PropertyOutcome(page, now).item[LowerPrice] == (if lower.Some? then Int(lower.value) else Int(0))
  {
    var coords := YieldedItem(page, now);
  }

  /** The yielded item's upper price is the parsed upper bound, 0 when the
      text gives none. */
  lemma YieldedUpperPrice(page: PropertyPage, now: int)
    requires PropertyOutcome(page, now).Yielded?
    ensures UpperPrice in PropertyOutcome(page, now).item
    ensures var upper := HomelyPrice.ParsePrice(page.priceText).1;
      PropertyOutcome(page, now).item[UpperPrice] == (if upper.Some? then Int(upper.value) else Int(0))
  {
    var coords := YieldedItem(page, now);
  }

  /** The yielded item's `origin_images` is the photos followed by the
      floor plans, and its `images` starts empty. */
  lemma YieldedImages(page: PropertyPage, now: int)
    requires PropertyOutcome(page, now).Yielded?
    ensures OriginImages in PropertyOutcome(page, now).item && Images in PropertyOutcome(page, now).item
    ensures PropertyOutcome(page, now).item[OriginImages] == StrList(GalleryUrls(page.gallery))
    ensures PropertyOutcome(page, now).item[Images] == List([])
  {
    var coords := YieldedItem(page, now);
  }

  /** Without a documents link the item still lists one document: None. */
  lemma NoDocumentLink(page: PropertyPage, now: int)
    requires PropertyOutcome(page, now).Yielded?
    requires page.documentLink.None?
    ensures OriginPdfDocument in PropertyOutcome(page, now).item
    ensures PropertyOutcome(page, now).item[OriginPdfDocument] == List([Null])
  {
    var coords := YieldedItem(page, now);
  }
}
