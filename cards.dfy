/** The card catalog endpoints under /v1/cards: the seven-part canonical key,
    the search listing with LIMIT/OFFSET paging, lookup, creation, partial
    update and soft deletion. */
module CardsRouter {
  import opened Common
  import opened Models
  import opened Query
  import opened Store

  // ------------------------------------------------------------------ canon

  /** ("" if v is None else str(v)).strip().lower() for a text column. */
  function NormText(v: Option<string>): string {
    match v
    case None => ""
    case Some(s) => Lower(Strip(s))
  }

  /** The same normalisation for the integer year column. */
  function NormYear(v: Option<int>): string {
    match v
    case None => ""
    case Some(y) => Lower(Strip(IntToString(y)))
  }

  /** The seven normalised parts, in key order. */
  function CanonParts(year: Option<int>, brand: Option<string>, setName: Option<string>,
                      subset: Option<string>, cardNo: Option<string>,
                      parallel: Option<string>, variant: Option<string>): seq<string>
  {
    [NormYear(year), NormText(brand), NormText(setName), NormText(subset),
     NormText(cardNo), NormText(parallel), NormText(variant)]
  }

  function Canon(year: Option<int>, brand: Option<string>, setName: Option<string>,
                 subset: Option<string>, cardNo: Option<string>,
                 parallel: Option<string>, variant: Option<string>): string
  {
    Join(CanonParts(year, brand, setName, subset, cardNo, parallel, variant), '|')
  }

  function CanonOf(c: Card): string {
    Canon(c.year, c.brand, c.setName, c.subset, c.cardNo, c.parallel, c.variant)
  }

  /** The key is exactly seven "|"-separated parts, each the normalised
      column, whenever no column holds a "|" itself. */
  lemma CanonRoundTrip(year: Option<int>, brand: Option<string>, setName: Option<string>,
                       subset: Option<string>, cardNo: Option<string>,
                       parallel: Option<string>, variant: Option<string>)
    requires forall i :: 0 <= i < 7 ==> '|' !in CanonParts(year, brand, setName, subset, cardNo, parallel, variant)[i]
    ensures var parts := Split(Canon(year, brand, setName, subset, cardNo, parallel, variant), '|');
      && |parts| == 7
      && parts[0] == NormYear(year) && parts[1] == NormText(brand) && parts[2] == NormText(setName)
      && parts[3] == NormText(subset) && parts[4] == NormText(cardNo)
      && parts[5] == NormText(parallel) && parts[6] == NormText(variant)
  {
    SplitJoin(CanonParts(year, brand, setName, subset, cardNo, parallel, variant), '|');
  }

  /** A column's part ignores letter case and surrounding whitespace. */
  lemma NormTextAbsorbs(s: string)
    ensures NormText(Some(Lower(s))) == NormText(Some(s))
    ensures NormText(Some(Strip(s))) == NormText(Some(s))
  {
    StripLower(s);
    LowerIdempotent(Strip(s));
    StripIdempotent(s);
  }

  // ------------------------------------------------------------ list_cards

  /** lower(col) LIKE lower('%' || q || '%'), ignoring LIKE's wildcards. */
  predicate ILike(col: Option<string>, q: string) {
    col.Some? && Contains(Lower(col.value), Lower(q))
  }

  predicate MatchesQuery(c: Card, q: string) {
    ILike(c.player, q) || ILike(c.brand, q) || ILike(c.setName, q) || ILike(c.cardNo, q)
  }

  /** The WHERE clause: live rows, and the text filter only for a non-empty q. */
  function ListFilter(q: Option<string>): Card -> bool {
    if Truthy(q) then (c: Card) => c.Live() && MatchesQuery(c, q.value)
    else (c: Card) => c.Live()
  }

  function UpdatedAt(c: Card): int {
    c.updatedAt
  }

  /** The query defaults of list_cards, used whenever a request names no
      limit or offset. */
  const DefaultLimit: int := 100
  const DefaultOffset: int := 0

  /** GET /v1/cards: live cards matching q, newest update first, paged. */
  function ListCards(t: Table<Card>, q: Option<string>, limit: int, offset: int): (r: seq<Card>)
    requires t.Valid()
    ensures limit >= 0 ==> |r| <= limit
  {
    Page(SortDesc(Filter(t.Values(), ListFilter(q)), UpdatedAt), offset, limit)
  }

  /** Every listed card is a live row of the table that matches q, and the
      page is in descending updated_at order. */
  lemma ListCardsSound(t: Table<Card>, q: Option<string>, limit: int, offset: int)
    requires t.Valid()
    ensures var r := ListCards(t, q, limit, offset);
      && (forall c :: c in r ==> c in t.Values() && c.Live())
      && (Truthy(q) ==> forall c :: c in r ==> MatchesQuery(c, q.value))
      && SortedDesc(r, UpdatedAt)
  {
    var chosen := Filter(t.Values(), ListFilter(q));
    var sorted := SortDesc(chosen, UpdatedAt);
    FilterMultiset(t.Values(), ListFilter(q));
    PageOfSorted(sorted, offset, limit, UpdatedAt);
    forall c | c in ListCards(t, q, limit, offset)
      ensures c in t.Values() && c.Live() && (Truthy(q) ==> MatchesQuery(c, q.value))
    {
      assert c in multiset(sorted);
      assert ListFilter(q)(c);
    }
  }

  /** A request without limit and offset lists at most 100 cards, none of
      them updated before a live match it leaves out, and leaves nothing out
      when fewer than 100 are listed. */
  lemma DefaultListing(t: Table<Card>, q: Option<string>)
    requires t.Valid()
    ensures var r := ListCards(t, q, DefaultLimit, DefaultOffset);
      && |r| <= DefaultLimit
      && (forall c, d :: c in r && d in t.Values() && d.Live() && (Truthy(q) ==> MatchesQuery(d, q.value)) && d !in r
            ==> d.updatedAt <= c.updatedAt)
      && (|r| < DefaultLimit ==>
            forall d :: d in t.Values() && d.Live() && (Truthy(q) ==> MatchesQuery(d, q.value)) ==> d in r)
  {
    var chosen := Filter(t.Values(), ListFilter(q));
    var sorted := SortDesc(chosen, UpdatedAt);
    FilterMultiset(t.Values(), ListFilter(q));
    FirstPageTop(sorted, DefaultLimit, UpdatedAt);
    forall d | d in t.Values() && d.Live() && (Truthy(q) ==> MatchesQuery(d, q.value))
      ensures d in sorted
    {
      assert ListFilter(q)(d);
      assert d in multiset(sorted);
    }
  }

  /** An empty q is the same request as no q at all. */
  lemma EmptyQueryIsNoQuery(t: Table<Card>, limit: int, offset: int)
    requires t.Valid()
    ensures ListCards(t, Some(""), limit, offset) == ListCards(t, None, limit, offset)
  {
  }

  /** With no offset and room for every row, each live matching card is listed. */
  lemma ListCardsComplete(t: Table<Card>, q: Option<string>, limit: int)
    requires t.Valid()
    requires limit < 0 || limit >= |t.order|
    ensures forall c ::
      (c in t.Values() && c.Live() && (Truthy(q) ==> MatchesQuery(c, q.value))) ==> c in ListCards(t, q, limit, 0)
  {
    var chosen := Filter(t.Values(), ListFilter(q));
    var sorted := SortDesc(chosen, UpdatedAt);
    FilterMultiset(t.Values(), ListFilter(q));
    var r := ListCards(t, q, limit, 0);
    PageAll(sorted, limit);
    forall c | c in t.Values() && c.Live() && (Truthy(q) ==> MatchesQuery(c, q.value))
      ensures c in r
    {
      assert ListFilter(q)(c);
      assert c in multiset(sorted);
    }
  }

  // -------------------------------------------------------------- get_card

  /** GET /v1/cards/{id}: 404 unless the card exists and is live. */
  function GetCard(t: Table<Card>, id: string): (r: Result<Card>)
    ensures r.Ok? <==> id in t.rows && t.rows[id].Live()
    ensures r.Ok? ==> r.value == t.rows[id]
    ensures r.Err? ==> r.error == NotFound("Card not found")
  {
    if id in t.rows && t.rows[id].Live() then Ok(t.rows[id]) else Err(NotFound("Card not found"))
  }

  // ----------------------------------------------------------- create_card

  /** The CardCreate / CardUpdate body: every field optional. */
  datatype CardPayload = CardPayload(
    year: Option<int>, brand: Option<string>, setName: Option<string>,
    subset: Option<string>, cardNo: Option<string>, player: Option<string>,
    team: Option<string>, sport: Option<string>, parallel: Option<string>,
    variant: Option<string>, printRun: Option<string>, notes: Option<string>)

  /** The row create_card builds under a new id. */
  function FromPayload(id: string, p: CardPayload, now: Timestamp): (c: Card)
    ensures c.cardUuid == id && c.Live() && c.tenantId == DefaultTenant && c.schemaVersion == SchemaVersion
    ensures c.createdAt == now && c.updatedAt == now
    ensures c.year == p.year && c.brand == p.brand && c.setName == p.setName && c.subset == p.subset
    ensures c.cardNo == p.cardNo && c.player == p.player && c.team == p.team && c.sport == p.sport
    ensures c.parallel == p.parallel && c.variant == p.variant && c.printRun == p.printRun && c.notes == p.notes
    ensures c.canonicalKey == Some(Canon(p.year, p.brand, p.setName, p.subset, p.cardNo, p.parallel, p.variant))
  {
    var c := NewCard(id, now).(
      year := p.year, brand := p.brand, setName := p.setName, subset := p.subset,
      cardNo := p.cardNo, player := p.player, team := p.team, sport := p.sport,
      parallel := p.parallel, variant := p.variant, printRun := p.printRun, notes := p.notes);
    c.(canonicalKey := Some(CanonOf(c)))
  }

  /** A card may join the table under a new key when its canonical key is
      not held by another card of its tenant. */
  lemma InsertCardKeepsValid(cards: Table<Card>, owners: Table<Ownership>, media: Table<Media>, c: Card)
    requires DbValid(cards, owners, media)
    requires c.cardUuid !in cards.rows && c.tenantId == DefaultTenant
    requires !KeyTaken(cards.rows, c.tenantId, c.canonicalKey, c.cardUuid)
    ensures DbValid(cards.Insert(c.cardUuid, c), owners, media)
  {
    PutKeepsUnique(cards.rows, c.cardUuid, c);
  }

  /** POST /v1/cards. The commit fails (IntegrityError) when the new id is
      taken or another card already has the same canonical key. */
  method CreateCard(db: Database, uuid: string, p: CardPayload, now: Timestamp) returns (r: Result<Card>)
    requires db.Valid()
    modifies db
    ensures db.Valid()
    ensures db.owners == old(db.owners) && db.media == old(db.media)
    ensures var id := "c_" + uuid; var c := FromPayload(id, p, now);
      if id in old(db.cards.rows) || KeyTaken(old(db.cards.rows), DefaultTenant, c.canonicalKey, id)
      then r == Err(IntegrityError) && db.cards == old(db.cards)
      else r == Ok(c) && db.cards == old(db.cards).Insert(id, c)
  {
    var id := "c_" + uuid;
    var c := FromPayload(id, p, now);
    if id in db.cards.rows || KeyTaken(db.cards.rows, DefaultTenant, c.canonicalKey, id) {
      return Err(IntegrityError);
    }
    InsertCardKeepsValid(db.cards, db.owners, db.media, c);
    db.cards := db.cards.Insert(id, c);
    r := Ok(c);
  }

  // ----------------------------------------------------------- update_card

  /** One entry of payload.model_dump(exclude_unset=True). */
  datatype Assignment = SetYear(year: Option<int>) | SetText(field: TextField, value: Option<string>)

  function Assign(c: Card, a: Assignment): Card {
    match a
    case SetYear(y) => c.(year := y)
    case SetText(f, v) => WithText(c, f, v)
  }

  /** The card after the setattr loop over the assignments, in order. Only
      client columns change. */
  function Patched(c: Card, p: seq<Assignment>): (r: Card)
    ensures r.cardUuid == c.cardUuid && r.tenantId == c.tenantId && r.schemaVersion == c.schemaVersion
    ensures r.createdAt == c.createdAt && r.updatedAt == c.updatedAt && r.deletedAt == c.deletedAt
    ensures r.canonicalKey == c.canonicalKey
  {
    if p == [] then c else Assign(Patched(c, p[..|p| - 1]), p[|p| - 1])
  }

  /** The value the payload gives a text column, if it sets it at all. */
  function LastText(p: seq<Assignment>, f: TextField): Option<Option<string>> {
    if p == [] then None
    else if p[|p| - 1].SetText? && p[|p| - 1].field == f then Some(p[|p| - 1].value)
    else LastText(p[..|p| - 1], f)
  }

  function LastYear(p: seq<Assignment>): Option<Option<int>> {
    if p == [] then None
    else if p[|p| - 1].SetYear? then Some(p[|p| - 1].year)
    else LastYear(p[..|p| - 1])
  }

  /** A column the payload sets takes the payload's value; every other column
      keeps its old value. */
  lemma {:induction false} PatchedColumns(c: Card, p: seq<Assignment>)
    ensures forall f :: Text(Patched(c, p), f) == LastText(p, f).GetOr(Text(c, f))
    ensures Patched(c, p).year == LastYear(p).GetOr(c.year)
  {
    if p != [] {
      PatchedColumns(c, p[..|p| - 1]);
    }
  }

  /** The row update_card commits: patched, re-stamped, re-keyed. */
  function Updated(c: Card, p: seq<Assignment>, now: Timestamp): Card {
    var pc := Patched(c, p).(updatedAt := now);
    pc.(canonicalKey := Some(CanonOf(pc)))
  }

  /** PATCH /v1/cards/{id}: 404 for a missing or deleted card; otherwise the
      assignments are applied one by one, updated_at is bumped and the key is
      recomputed from the resulting columns. */
  method UpdateCard(db: Database, id: string, p: seq<Assignment>, now: Timestamp) returns (r: Result<Card>)
    requires db.Valid()
    modifies db
    ensures db.Valid()
    ensures db.owners == old(db.owners) && db.media == old(db.media)
    ensures GetCard(old(db.cards), id).Err? ==> r == GetCard(old(db.cards), id) && db.cards == old(db.cards)
    ensures GetCard(old(db.cards), id).Ok? ==>
      var c := Updated(old(db.cards.rows[id]), p, now);
      if KeyTaken(old(db.cards.rows), c.tenantId, c.canonicalKey, id)
      then r == Err(IntegrityError) && db.cards == old(db.cards)
      else r == Ok(c) && db.cards == old(db.cards).Put(id, c)
  {
    var g := GetCard(db.cards, id);
    if g.Err? {
      return g;
    }
    var card := g.value;
    var i := 0;
    while i < |p|
      invariant 0 <= i <= |p|
      invariant card == Patched(g.value, p[..i])
    {
      assert p[..i + 1][..i] == p[..i];
      card := Assign(card, p[i]);
      i := i + 1;
    }
    assert p[..|p|] == p;
    card := card.(updatedAt := now);
    card := card.(canonicalKey := Some(CanonOf(card)));
    if KeyTaken(db.cards.rows, card.tenantId, card.canonicalKey, id) {
      return Err(IntegrityError);
    }
    PutKeepsUnique(db.cards.rows, id, card);
    db.cards := db.cards.Put(id, card);
    r := Ok(card);
  }

  /** Re-stamping and re-keying leaves the client columns alone. */
  lemma RestampKeepsText(c: Card, now: Timestamp, key: Option<string>)
    ensures forall f :: Text(c.(updatedAt := now, canonicalKey := key), f) == Text(c, f)
  {
  }

  /** The update changes exactly the columns the payload names, plus
      updated_at and the key, which is the canon of the resulting columns. */
  lemma UpdatedSpec(c: Card, p: seq<Assignment>, now: Timestamp)
    ensures forall f :: Text(Updated(c, p, now), f) == LastText(p, f).GetOr(Text(c, f))
    ensures Updated(c, p, now).year == LastYear(p).GetOr(c.year)
    ensures Updated(c, p, now).updatedAt == now && Updated(c, p, now).createdAt == c.createdAt
    ensures Updated(c, p, now).deletedAt == c.deletedAt && Updated(c, p, now).cardUuid == c.cardUuid
  {
    PatchedColumns(c, p);
    var pc := Patched(c, p);
    RestampKeepsText(pc, now, Some(CanonOf(pc.(updatedAt := now))));
  }

  /** The stored key is the canon of the updated columns. */
  lemma UpdatedKey(c: Card, p: seq<Assignment>, now: Timestamp)
    ensures var u := Updated(c, p, now);
      u.canonicalKey == Some(Canon(u.year, u.brand, u.setName, u.subset, u.cardNo, u.parallel, u.variant))
  {
  }

  // ----------------------------------------------------------- delete_card

  function SoftDeleted(t: Table<Card>, id: string, now: Timestamp): Table<Card>
    requires t.Valid() && id in t.rows
  {
    t.Put(id, t.rows[id].(deletedAt := Some(now)))
  }

  /** DELETE /v1/cards/{id}: 404 for a missing or deleted card, otherwise the
      row stays and only its deleted_at is set. */
  method DeleteCard(db: Database, id: string, now: Timestamp) returns (r: Result<bool>)
    requires db.Valid()
    modifies db
    ensures db.Valid()
    ensures db.owners == old(db.owners) && db.media == old(db.media)
    ensures GetCard(old(db.cards), id).Err? ==> r == Err(NotFound("Card not found")) && db.cards == old(db.cards)
    ensures GetCard(old(db.cards), id).Ok? ==> r == Ok(true) && db.cards == SoftDeleted(old(db.cards), id, now)
  {
    var g := GetCard(db.cards, id);
    if g.Err? {
      return Err(g.error);
    }
    var c := db.cards.rows[id].(deletedAt := Some(now));
    PutKeepsUnique(db.cards.rows, id, c);
    db.cards := db.cards.Put(id, c);
    r := Ok(true);
  }

  /** After a delete the card is gone for every later request: get, update
      and a second delete answer 404, no listing shows it, and every other
      row is as it was. */
  lemma DeleteHidesCard(t: Table<Card>, id: string, now: Timestamp)
    requires t.Valid() && CardKeys(t) && id in t.rows
    ensures GetCard(SoftDeleted(t, id, now), id).Err?
    ensures forall k :: k in t.rows && k != id ==> SoftDeleted(t, id, now).rows[k] == t.rows[k]
    ensures forall q, limit, offset, c :: c in ListCards(SoftDeleted(t, id, now), q, limit, offset) ==> c.cardUuid != id
  {
    var t' := SoftDeleted(t, id, now);
    forall q, limit, offset, c | c in ListCards(t', q, limit, offset) ensures c.cardUuid != id {
      ListCardsSound(t', q, limit, offset);
      LiveCardNotDeleted(t, id, now, c);
    }
  }

  lemma LiveCardNotDeleted(t: Table<Card>, id: string, now: Timestamp, c: Card)
    requires t.Valid() && CardKeys(t) && id in t.rows
    requires c in SoftDeleted(t, id, now).Values() && c.Live()
    ensures c.cardUuid != id
  {
    var t' := SoftDeleted(t, id, now);
    InValues(t', c);
    var k :| k in t'.rows && t'.rows[k] == c;
    assert k != id;
  }
}
