/**
 * `DBRealEstatePipeline.process_item`
 * (realestate_scrapy/pipelines/database_pipeline.py): the agent named by an
 * item is found by its exact `(name, phone)` pair or created, then the
 * listing with the item's `external_id` is created or merged, Python's `or`
 * deciding which value wins. The relational store is held in memory: the
 * agents in id order and the listings by `external_id`.
 */
module DatabasePipeline {
  import opened Wrappers
  import opened PyValue

  // ---------------------------------------------------------------------
  // Rows

  /** An `agents` row (models.py:10-24); `id` is the autoincrement key. */
  datatype Agent = Agent(
    id: nat, name: Value, phone: Value,
    email: Value, agency: Value, profileUrl: Value, bio: Value,
    profileImage: Value, socialMedia: Value,
    createdAt: Value, updatedAt: Value)

  /** A `home_listings` row: column to value. */
  type Row = map<Field, Value>

  /** The mapped attributes of `HomeListing` (models.py:36-72), its own
      `id` left out. There is no `price` among them, nor any agent field. */
  predicate IsColumn(f: Field)
  {
    !(|| f.Name? || f.Price?
      || f.AgentName? || f.AgentPhone? || f.AgentEmail? || f.AgentAgency?
      || f.AgentProfileUrl? || f.AgentBio? || f.AgentProfileImage? || f.AgentSocialMedia?)
  }

  /** Which price fields the pipeline writes: as written, lines 74 and 105
      write `price`, which is not a column; the corrected pipeline writes
      the three price columns the spider fills. */
  predicate IsPriceField(v: Variant, f: Field)
  {
    if v == AsWritten then f.Price? else f.PriceText? || f.LowerPrice? || f.UpperPrice?
  }

  /** The listing fields copied from the item besides `external_id` and the
      price, lines 67-91 and 99-122: every column but the key, the price
      columns, the timestamps and the agent. */
  predicate IsCopied(f: Field)
  {
    && IsColumn(f)
    && !(|| f.ExternalId? || f.PriceText? || f.LowerPrice? || f.UpperPrice?
         || f.CreatedAt? || f.UpdatedAt? || f.AgentId?)
  }

  /** The fields merged into an existing listing, lines 99-122. */
  predicate IsMerged(v: Variant, f: Field)
  {
    IsCopied(f) || IsPriceField(v, f)
  }

  /** The keywords `HomeListing(...)` receives from the item, lines 67-91. */
  predicate IsInserted(v: Variant, f: Field)
  {
    IsMerged(v, f) || f == ExternalId
  }

  /** Every field the corrected pipeline writes is a column, and the merge
      never touches the key, the timestamps or the agent; the pipeline as
      written writes `price`, which is not a column. */
  lemma FieldsAreColumns(v: Variant)
    ensures v == Corrected <==> forall f :: IsInserted(v, f) ==> IsColumn(f)
    ensures v == AsWritten ==> IsMerged(v, Price) && !IsColumn(Price)
    ensures forall f :: IsMerged(v, f) ==> f != ExternalId && f != CreatedAt && f != UpdatedAt && f != AgentId
    ensures forall f :: IsMerged(v, f) && !IsColumn(f) ==> f == Price
  {
    if v == AsWritten {
      assert IsInserted(v, Price);
    }
  }

  // ---------------------------------------------------------------------
  // Agents

  /** `session.query(Agent).filter(name == n, phone == p).first()`: the
      position of the first agent with exactly that pair. */
  function FindAgent(agents: seq<Agent>, name: Value, phone: Value): (r: Option<nat>)
    ensures r.Some? ==> r.value < |agents| && agents[r.value].name == name && agents[r.value].phone == phone
    ensures r.Some? ==> forall i :: 0 <= i < r.value ==> !(agents[i].name == name && agents[i].phone == phone)
    ensures r.None? <==> forall i :: 0 <= i < |agents| ==> !(agents[i].name == name && agents[i].phone == phone)
  {
    if agents == [] then None
    else if agents[0].name == name && agents[0].phone == phone then Some(0)
    else match FindAgent(agents[1..], name, phone)
      case Some(i) => Some(i + 1)
      case None => None
  }

  /** Lines 34-45: a new agent from the item's agent fields. */
  function NewAgent(item: Item, id: nat, now: int): Agent
  {
    Agent(id, Get(item, AgentName), Get(item, AgentPhone),
      Get(item, AgentEmail), Get(item, AgentAgency), Get(item, AgentProfileUrl),
      Get(item, AgentBio), Get(item, AgentProfileImage), Get(item, AgentSocialMedia),
      Time(now), Time(now))
  }

  /** Lines 50-56: each optional field takes the item's value when it is
      truthy, and keeps its own otherwise. */
  function MergeAgent(a: Agent, item: Item, now: int): Agent
  {
    a.(email := Or(Get(item, AgentEmail), a.email),
       agency := Or(Get(item, AgentAgency), a.agency),
       profileUrl := Or(Get(item, AgentProfileUrl), a.profileUrl),
       bio := Or(Get(item, AgentBio), a.bio),
       profileImage := Or(Get(item, AgentProfileImage), a.profileImage),
       socialMedia := Or(Get(item, AgentSocialMedia), a.socialMedia),
       updatedAt := Time(now))
  }

  /** Lines 17-57 once the name and phone are known to be truthy: the agents
      afterwards and the id of the agent resolved for the item. */
  function AgentStep(agents: seq<Agent>, item: Item, now: int): (seq<Agent>, nat)
  {
    match FindAgent(agents, Get(item, AgentName), Get(item, AgentPhone))
    case Some(i) => (agents[i := MergeAgent(agents[i], item, now)], agents[i].id)
    case None => (agents + [NewAgent(item, |agents| + 1, now)], |agents| + 1)
  }

  /** The agents table as the autoincrement key and the pair lookup leave
      it: ids count up from 1 and no two agents share a `(name, phone)`. */
  predicate AgentsValid(agents: seq<Agent>)
  {
    && (forall i :: 0 <= i < |agents| ==> agents[i].id == i + 1)
    && (forall i, j :: 0 <= i < j < |agents| ==> agents[i].name != agents[j].name || agents[i].phone != agents[j].phone)
  }

  /** Resolving an agent keeps the table valid, and the id it returns is
      that of the agent carrying the item's pair. */
  lemma AgentStepValid(agents: seq<Agent>, item: Item, now: int)
    requires AgentsValid(agents)
    ensures var (after, id) := AgentStep(agents, item, now);
      && AgentsValid(after)
      && 1 <= id <= |after|
      && after[id - 1].name == Get(item, AgentName) && after[id - 1].phone == Get(item, AgentPhone)
  {
  }

  /** A pair not yet in the table: one agent is appended with the next id,
      the item's pair and optional fields and the current time; the agents
      before it are unchanged. */
  lemma AgentNewLaw(agents: seq<Agent>, item: Item, now: int)
    requires FindAgent(agents, Get(item, AgentName), Get(item, AgentPhone)).None?
    ensures var (after, id) := AgentStep(agents, item, now);
      && |after| == |agents| + 1 && after[..|agents|] == agents && id == |agents| + 1
      && after[|agents|].id == id
      && after[|agents|].name == Get(item, AgentName) && after[|agents|].phone == Get(item, AgentPhone)
      && after[|agents|].email == Get(item, AgentEmail) && after[|agents|].agency == Get(item, AgentAgency)
      && after[|agents|].profileUrl == Get(item, AgentProfileUrl) && after[|agents|].bio == Get(item, AgentBio)
      && after[|agents|].profileImage == Get(item, AgentProfileImage)
      && after[|agents|].socialMedia == Get(item, AgentSocialMedia)
      && after[|agents|].createdAt == Time(now) && after[|agents|].updatedAt == Time(now)
  {
    var after := agents + [NewAgent(item, |agents| + 1, now)];
    assert after[..|agents|] == agents;
  }

  /** An existing agent: the optional fields follow the item where it is
      truthy and keep their value where it is not; name, phone, id and
      creation time never change, and no other agent does. */
  lemma AgentMergeLaw(agents: seq<Agent>, item: Item, now: int, i: nat)
    requires i < |agents| && agents[i].name == Get(item, AgentName) && agents[i].phone == Get(item, AgentPhone)
    requires AgentsValid(agents)
    ensures var (after, id) := AgentStep(agents, item, now);
      && |after| == |agents| && id == agents[i].id
      && after[i].id == agents[i].id && after[i].name == agents[i].name && after[i].phone == agents[i].phone
      && after[i].createdAt == agents[i].createdAt && after[i].updatedAt == Time(now)
      && (Truthy(Get(item, AgentEmail)) ==> after[i].email == Get(item, AgentEmail))
      && (!Truthy(Get(item, AgentEmail)) ==> after[i].email == agents[i].email)
      && (Truthy(Get(item, AgentAgency)) ==> after[i].agency == Get(item, AgentAgency))
      && (!Truthy(Get(item, AgentAgency)) ==> after[i].agency == agents[i].agency)
      && (Truthy(Get(item, AgentProfileUrl)) ==> after[i].profileUrl == Get(item, AgentProfileUrl))
      && (!Truthy(Get(item, AgentProfileUrl)) ==> after[i].profileUrl == agents[i].profileUrl)
      && (Truthy(Get(item, AgentBio)) ==> after[i].bio == Get(item, AgentBio))
      && (!Truthy(Get(item, AgentBio)) ==> after[i].bio == agents[i].bio)
      && (Truthy(Get(item, AgentProfileImage)) ==> after[i].profileImage == Get(item, AgentProfileImage))
      && (!Truthy(Get(item, AgentProfileImage)) ==> after[i].profileImage == agents[i].profileImage)
      && (Truthy(Get(item, AgentSocialMedia)) ==> after[i].socialMedia == Get(item, AgentSocialMedia))
      && (!Truthy(Get(item, AgentSocialMedia)) ==> after[i].socialMedia == agents[i].socialMedia)
      && (forall j :: 0 <= j < |agents| && j != i ==> after[j] == agents[j])
  {
    var r := FindAgent(agents, Get(item, AgentName), Get(item, AgentPhone));
    assert r.Some?;
    assert r.value == i;
  }

  /** Two items with the same pair resolve to one agent; the second adds
      no row. */
  lemma SamePairOneAgent(agents: seq<Agent>, item1: Item, item2: Item, now1: int, now2: int)
    requires AgentsValid(agents)
    requires Get(item1, AgentName) == Get(item2, AgentName) && Get(item1, AgentPhone) == Get(item2, AgentPhone)
    ensures var (mid, id1) := AgentStep(agents, item1, now1);
      var (after, id2) := AgentStep(mid, item2, now2);
      id1 == id2 && |after| == |mid|
  {
    var (mid, id1) := AgentStep(agents, item1, now1);
    AgentStepValid(agents, item1, now1);
    AgentMergeLaw(mid, item2, now2, id1 - 1);
  }

  /** The same name with another phone is another agent. */
  lemma OtherPhoneOtherAgent(agents: seq<Agent>, item1: Item, item2: Item, now1: int, now2: int)
    requires AgentsValid(agents)
    requires Get(item1, AgentName) == Get(item2, AgentName) && Get(item1, AgentPhone) != Get(item2, AgentPhone)
    ensures var (mid, id1) := AgentStep(agents, item1, now1);
      var (after, id2) := AgentStep(mid, item2, now2);
      id1 != id2 && after[id1 - 1].phone == Get(item1, AgentPhone) && after[id2 - 1].phone == Get(item2, AgentPhone)
  {
    var (mid, id1) := AgentStep(agents, item1, now1);
    AgentStepValid(agents, item1, now1);
    AgentStepValid(mid, item2, now2);
  }

  // ---------------------------------------------------------------------
  // Listings

  /** The value line 112 stores: the trailing comma makes `council_rates`
      a one-element tuple; every other field stores the value as it is. */
  function Stored(f: Field, v: Value): Value
  {
    if f == CouncilRates then Tuple([v]) else v
  }

  /** Lines 66-95: `HomeListing(**fields)`. The declarative constructor
      rejects a keyword that is not a mapped attribute with TypeError. */
  function NewListing(v: Variant, item: Item, agentId: nat, now: int): Result<Row>
  {
    if exists f :: IsInserted(v, f) && !IsColumn(f) then Err(TypeError)
    else Ok((map f: Field | IsInserted(v, f) :: Get(item, f))
            [CreatedAt := Time(now)][UpdatedAt := Time(now)][AgentId := Int(agentId)])
  }

  /** Lines 99-122. A column takes `item.get(f) or listing.f`; a field that
      is not a column is a plain attribute: assigning it persists nothing,
      and reading it from a loaded row, which the `or` does when the item's
      value is falsy, raises AttributeError. */
  function MergeRow(v: Variant, row: Row, item: Item): Result<Row>
  {
    if exists f :: IsMerged(v, f) && !IsColumn(f) && !Truthy(Get(item, f)) then Err(AttributeError)
    else Ok(map f: Field | f in row || (IsMerged(v, f) && IsColumn(f)) ::
              if IsMerged(v, f) && IsColumn(f) then Stored(f, Or(Get(item, f), Get(row, f))) else row[f])
  }

  /** Lines 98-124: merge, refresh `updated_at` and point at this agent. */
  function UpdateListing(v: Variant, row: Row, item: Item, agentId: nat, now: int): Result<Row>
  {
    match MergeRow(v, row, item)
    case Ok(merged) => Ok(merged[UpdatedAt := Time(now)][AgentId := Int(agentId)])
    case Err(e) => Err(e)
  }

  /** What the commit of line 126 demands of the table: `url` and
      `external_id` are NOT NULL and `url` is UNIQUE (models.py:37-38); the
      table's key is `external_id`. */
  predicate Committable(listings: map<Value, Row>)
  {
    && (forall k :: k in listings ==> Get(listings[k], ExternalId) == k && k != Null && Get(listings[k], Url) != Null)
    && (forall k1, k2 :: k1 in listings && k2 in listings && k1 != k2 ==> Get(listings[k1], Url) != Get(listings[k2], Url))
  }

  /** Lines 60-126 for the resolved agent: the listings after the commit,
      or the exception raised on the way. */
  function ListingStep(v: Variant, listings: map<Value, Row>, item: Item, agentId: nat, now: int): Result<map<Value, Row>>
  {
    var key := Get(item, ExternalId);
    var row := if key in listings then UpdateListing(v, listings[key], item, agentId, now) else NewListing(v, item, agentId, now);
    match row
    case Err(e) => Err(e)
    case Ok(r) => if Committable(listings[key := r]) then Ok(listings[key := r]) else Err(IntegrityError)
  }

  /** The insert: as written the constructor always raises; corrected,
      every written field holds the item's value, both timestamps are `now`
      and the row points at the agent. */
  lemma NewListingLaw(v: Variant, item: Item, agentId: nat, now: int)
    ensures v == AsWritten <==> NewListing(v, item, agentId, now) == Err(TypeError)
    ensures v == Corrected ==>
      && NewListing(v, item, agentId, now).Ok?
      && var row := NewListing(v, item, agentId, now).value;
      && (forall f :: f in row <==> IsInserted(v, f) || f == CreatedAt || f == UpdatedAt || f == AgentId)
      && (forall f :: IsInserted(v, f) ==> row[f] == Get(item, f))
      && row[CreatedAt] == Time(now) && row[UpdatedAt] == Time(now) && row[AgentId] == Int(agentId)
  {
    FieldsAreColumns(v);
  }

  /** The update with every written field a column, as corrected or as
      written with a truthy price: it does not raise. A merged column takes
      the item's value when it is truthy and keeps the row's when it is
      not, through the tuple of line 112 for `council_rates`; `updated_at`
      and `agent_id` are set, and every other column, `external_id` and
      `created_at` among them, is left as it was. */
  lemma UpdateListingLaw(v: Variant, row: Row, item: Item, agentId: nat, now: int)
    requires v == Corrected || Truthy(Get(item, Price))
    ensures UpdateListing(v, row, item, agentId, now).Ok?
    ensures var r := UpdateListing(v, row, item, agentId, now).value;
      && (forall f :: f in r <==> f in row || (IsMerged(v, f) && IsColumn(f)) || f == UpdatedAt || f == AgentId)
      && (forall f :: IsMerged(v, f) && IsColumn(f) && Truthy(Get(item, f)) ==> r[f] == Stored(f, Get(item, f)))
      && (forall f :: IsMerged(v, f) && IsColumn(f) && !Truthy(Get(item, f)) ==> r[f] == Stored(f, Get(row, f)))
      && (forall f :: f in row && !(IsMerged(v, f) && IsColumn(f)) && f != UpdatedAt && f != AgentId ==> r[f] == row[f])
      && r[UpdatedAt] == Time(now) && r[AgentId] == Int(agentId)
  {
    FieldsAreColumns(v);
  }

  /** The update as written: line 105 reads `listing.price`, which a loaded
      row does not have, exactly when the item's price is falsy. */
  lemma UpdateAsWritten(row: Row, item: Item, agentId: nat, now: int)
    ensures UpdateListing(AsWritten, row, item, agentId, now) == Err(AttributeError) <==> !Truthy(Get(item, Price))
  {
    FieldsAreColumns(AsWritten);
    if Truthy(Get(item, Price)) {
      UpdateListingLaw(AsWritten, row, item, agentId, now);
    } else {
      assert IsMerged(AsWritten, Price) && !IsColumn(Price);
    }
  }

  /** An item that carries no truthy `price`, which is every item the
      spider yields, never reaches the table as written: a new listing
      raises TypeError and an existing one AttributeError. */
  lemma NoPriceNoListing(listings: map<Value, Row>, item: Item, agentId: nat, now: int)
    requires !Truthy(Get(item, Price))
    ensures ListingStep(AsWritten, listings, item, agentId, now).Err?
    ensures var e := ListingStep(AsWritten, listings, item, agentId, now).error;
      e == (if Get(item, ExternalId) in listings then AttributeError else TypeError)
  {
    NewListingLaw(AsWritten, item, agentId, now);
    if Get(item, ExternalId) in listings {
      UpdateAsWritten(listings[Get(item, ExternalId)], item, agentId, now);
    }
  }

  /** One field of a corrected insert. */
  lemma NewListingAt(item: Item, agentId: nat, now: int, f: Field)
    ensures NewListing(Corrected, item, agentId, now).Ok?
    ensures var row := NewListing(Corrected, item, agentId, now).value;
      && (f in row <==> IsInserted(Corrected, f) || f == CreatedAt || f == UpdatedAt || f == AgentId)
      && (IsInserted(Corrected, f) ==> row[f] == Get(item, f))
      && row[CreatedAt] == Time(now) && row[UpdatedAt] == Time(now) && row[AgentId] == Int(agentId)
  {
    NewListingLaw(Corrected, item, agentId, now);
  }

  /** One field of a corrected update. */
  lemma UpdateListingAt(row: Row, item: Item, agentId: nat, now: int, f: Field)
    ensures UpdateListing(Corrected, row, item, agentId, now).Ok?
    ensures var r := UpdateListing(Corrected, row, item, agentId, now).value;
      && (f in r <==> f in row || (IsMerged(Corrected, f) && IsColumn(f)) || f == UpdatedAt || f == AgentId)
      && (IsMerged(Corrected, f) && IsColumn(f) ==> r[f] == Stored(f, Or(Get(item, f), Get(row, f))))
      && (f in row && !(IsMerged(Corrected, f) && IsColumn(f)) && f != UpdatedAt && f != AgentId ==> r[f] == row[f])
      && r[UpdatedAt] == Time(now) && r[AgentId] == Int(agentId)
  {
    UpdateListingLaw(Corrected, row, item, agentId, now);
  }

  /** Scraping the same item again changes only `updated_at` and wraps
      `council_rates` in the tuple of line 112. */
  lemma RescrapeSameItem(item: Item, agentId: nat, now1: int, now2: int)
    ensures NewListing(Corrected, item, agentId, now1).Ok?
    ensures var row := NewListing(Corrected, item, agentId, now1).value;
      && UpdateListing(Corrected, row, item, agentId, now2).Ok?
      && var r := UpdateListing(Corrected, row, item, agentId, now2).value;
      && CouncilRates in row && UpdatedAt in row
      && (forall f :: f in r <==> f in row)
      && (forall f :: f in row && f != CouncilRates && f != UpdatedAt ==> r[f] == row[f])
      && r[CouncilRates] == Tuple([row[CouncilRates]])
      && r[UpdatedAt] == Time(now2)
  {
    RescrapeField(item, agentId, now1, now2, CouncilRates);
    RescrapeField(item, agentId, now1, now2, UpdatedAt);
    var row := NewListing(Corrected, item, agentId, now1).value;
    var r := UpdateListing(Corrected, row, item, agentId, now2).value;
    forall f
      ensures f in r <==> f in row
      ensures f in row && f != CouncilRates && f != UpdatedAt ==> r[f] == row[f]
    {
      RescrapeField(item, agentId, now1, now2, f);
    }
  }

  /** One field of a listing inserted and then updated from the same item. */
  lemma RescrapeField(item: Item, agentId: nat, now1: int, now2: int, f: Field)
    ensures NewListing(Corrected, item, agentId, now1).Ok?
    ensures var row := NewListing(Corrected, item, agentId, now1).value;
      && UpdateListing(Corrected, row, item, agentId, now2).Ok?
      && var r := UpdateListing(Corrected, row, item, agentId, now2).value;
      && (f in r <==> f in row)
      && (f in row && f != CouncilRates && f != UpdatedAt ==> r[f] == row[f])
      && (f == CouncilRates ==> f in row && r[f] == Tuple([row[f]]))
      && (f == UpdatedAt ==> f in row && r[f] == Time(now2))
  {
    NewListingAt(item, agentId, now1, f);
    var row := NewListing(Corrected, item, agentId, now1).value;
    UpdateListingAt(row, item, agentId, now2, f);
    if IsMerged(Corrected, f) {
      assert IsColumn(f) && IsInserted(Corrected, f);
      assert Get(row, f) == Get(item, f);
    }
  }

  /** The commit: the table afterwards is the old one with the item's key
      bound to its row, or nothing changes. */
  lemma ListingStepFrame(v: Variant, listings: map<Value, Row>, item: Item, agentId: nat, now: int)
    requires Committable(listings)
    ensures var step := ListingStep(v, listings, item, agentId, now);
      step.Ok? ==>
        && step.value.Keys == listings.Keys + {Get(item, ExternalId)}
        && Get(item, ExternalId) != Null
        && Get(step.value[Get(item, ExternalId)], ExternalId) == Get(item, ExternalId)
        && (forall k :: k in listings && k != Get(item, ExternalId) ==> step.value[k] == listings[k])
  {
  }

  /** An item without `external_id` or without `url` is refused at the
      commit: the columns are NOT NULL (models.py:37-38). */
  lemma MissingKeyRefused(listings: map<Value, Row>, item: Item, agentId: nat, now: int)
    requires Committable(listings)
    requires Get(item, ExternalId) == Null || (Get(item, ExternalId) !in listings && Get(item, Url) == Null)
    ensures ListingStep(Corrected, listings, item, agentId, now) == Err(IntegrityError)
  {
    NewListingAt(item, agentId, now, Url);
    NewListingAt(item, agentId, now, ExternalId);
    var key := Get(item, ExternalId);
    assert key !in listings;
    var row := NewListing(Corrected, item, agentId, now).value;
    var m := listings[key := row];
    assert ListingStep(Corrected, listings, item, agentId, now) == (if Committable(m) then Ok(m) else Err(IntegrityError));
    assert !Committable(m) by {
      assert key in m && m[key] == row && Get(row, Url) == Get(item, Url);
    }
  }

  /** A new listing whose `url` another listing already has is refused: the
      column is UNIQUE (models.py:37). */
  lemma DuplicateUrlRefused(listings: map<Value, Row>, item: Item, agentId: nat, now: int, other: Value)
    requires Committable(listings)
    requires Get(item, ExternalId) !in listings && other in listings
    requires Get(listings[other], Url) == Get(item, Url)
    ensures ListingStep(Corrected, listings, item, agentId, now) == Err(IntegrityError)
  {
    NewListingAt(item, agentId, now, Url);
    var key := Get(item, ExternalId);
    var row := NewListing(Corrected, item, agentId, now).value;
    var m := listings[key := row];
    assert ListingStep(Corrected, listings, item, agentId, now) == (if Committable(m) then Ok(m) else Err(IntegrityError));
    assert !Committable(m) by {
      assert other != key && m[other] == listings[other];
      assert key in m && m[key] == row && Get(row, Url) == Get(item, Url);
    }
  }

  // ---------------------------------------------------------------------
  // The store

  class DBRealEstatePipeline {
    const variant: Variant
    var agents: seq<Agent>
    var listings: map<Value, Row>
    /** A commit failed: the session refuses all work until a rollback,
        which the pipeline never issues. */
    var needsRollback: bool

    ghost predicate Valid()
      reads this
    {
      AgentsValid(agents) && Committable(listings)
    }

    /** Line 10-12: a fresh session over an empty database. */
    constructor (v: Variant)
      ensures Valid() && variant == v
      ensures agents == [] && listings == map[] && !needsRollback
    {
      variant := v;
      agents := [];
      listings := map[];
      needsRollback := false;
    }

    /** `process_item(item, spider)`, `now` standing for `utcnow()`. */
    method ProcessItem(item: Item, now: int) returns (r: Result<Item>)
      requires Valid()
      modifies this
      ensures Valid()
      ensures !Truthy(Get(item, AgentName)) || !Truthy(Get(item, AgentPhone)) ==>
        r == Ok(item) && agents == old(agents) && listings == old(listings) && needsRollback == old(needsRollback)
      ensures Truthy(Get(item, AgentName)) && Truthy(Get(item, AgentPhone)) && old(needsRollback) ==>
        r == Err(PendingRollbackError) && agents == old(agents) && listings == old(listings) && needsRollback
      ensures Truthy(Get(item, AgentName)) && Truthy(Get(item, AgentPhone)) && !old(needsRollback) ==>
        var (after, id) := AgentStep(old(agents), item, now);
        && agents == after
        && match ListingStep(variant, old(listings), item, id, now)
           case Ok(m) => listings == m && r == Ok(item) && !needsRollback
           case Err(e) => listings == old(listings) && r == Err(e) && needsRollback == (e == IntegrityError)
    {
      var name := Get(item, AgentName);
      var phone := Get(item, AgentPhone);
      if !Truthy(name) || !Truthy(phone) {
        return Ok(item);
      }
      if needsRollback {
        return Err(PendingRollbackError);
      }
      AgentStepValid(agents, item, now);
      var step := AgentStep(agents, item, now);
      agents := step.0;
      var result := ListingStep(variant, listings, item, step.1, now);
      match result {
        case Ok(m) =>
          listings := m;
          r := Ok(item);
        case Err(e) =>
          needsRollback := e == IntegrityError;
          r := Err(e);
      }
    }
  }
}
