/**
 * Python values as they flow through the scraper's item dicts and ORM rows,
 * with Python's truthiness and the `a or b` operator the pipelines merge with.
 */
module PyValue {
  import Wrappers
  import opened PyStr

  /** A datetime is an opaque instant: only its identity matters here. */
  datatype Value =
    | Null
    | Str(s: string)
    | Int(i: int)
    | List(items: seq<Value>)
    | Tuple(items: seq<Value>)
    | Dict(entries: map<string, Value>)
    | Time(instant: int)

  /** The field names the items and the listing rows use: the keys of the
      spider's item dict (`"external_id"` is `ExternalId`) and the attributes
      of the ORM rows (`created_at`, `updated_at`, `agent_id`). */
  datatype Field =
    | Name | Url | Title | ExternalId | Address | Suburb | State | Postcode
    | Price | PriceText | LowerPrice | UpperPrice
    | PropertyType | Bedrooms | Bathrooms | CarSpaces | LandArea
    | Description | CouncilRates | Features
    | Images | OriginImages | FloorPlan | OriginFloorPlan | PdfDocument | OriginPdfDocument
    | Latitude | Longitude | PublishDate
    | AgentName | AgentPhone | AgentEmail | AgentAgency | AgentProfileUrl
    | AgentBio | AgentProfileImage | AgentSocialMedia
    | CreatedAt | UpdatedAt | AgentId

  /** A scraped item or an ORM row: a Python dict keyed by field name. */
  type Item = map<Field, Value>

  /** Python truthiness: None, "", 0 and empty containers are false. */
  predicate Truthy(v: Value)
  {
    match v
    case Null => false
    case Str(s) => s != ""
    case Int(i) => i != 0
    case List(xs) => xs != []
    case Tuple(xs) => xs != []
    case Dict(m) => m != map[]
    case Time(_) => true
  }

  /** Python's `a or b`. */
  function Or(a: Value, b: Value): (r: Value)
    ensures Truthy(a) ==> r == a
    ensures !Truthy(a) ==> r == b
  {
    if Truthy(a) then a else b
  }

  /** `d.get(k)`. */
  function Get(d: Item, k: Field): (r: Value)
    ensures k !in d ==> r == Null
  {
    if k in d then d[k] else Null
  }

  /** `d.get(k, default)`. */
  function GetOr(d: Item, k: Field, default: Value): Value
  {
    if k in d then d[k] else default
  }

  /** An optional string as Python holds it: a `str` or `None`. */
  function OptStr(o: Wrappers.Option<string>): Value
  {
    match o
    case Some(s) => Str(s)
    case None => Null
  }

  /** A Python list of strings. */
  function StrList(xs: seq<string>): (v: Value)
    ensures v.List? && |v.items| == |xs|
    ensures forall i :: 0 <= i < |xs| ==> v.items[i] == Str(xs[i])
  {
    List(seq(|xs|, i requires 0 <= i < |xs| => Str(xs[i])))
  }

  lemma StrListAppend(xs: seq<string>, ys: seq<string>)
    ensures StrList(xs + ys).items == StrList(xs).items + StrList(ys).items
  {
    assert StrList(xs + ys).items == StrList(xs).items + StrList(ys).items;
  }

  /** `str(v)` for the scalar values the media path builder formats; a
      container or a datetime is rendered by a fixed placeholder. */
  function Render(v: Value): string
  {
    match v
    case Null => "None"
    case Str(s) => s
    case Int(i) => DecimalString(i)
    case _ => "<object>"
  }
}
