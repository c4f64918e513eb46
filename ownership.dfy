/** The ownership endpoints under /v1/ownership: a user's copies of a card,
    listed per card, created against an existing card, and soft-deleted. */
module OwnershipRouter {
  import opened Common
  import opened Models
  import opened Query
  import opened Store

  /** The create body: every client column of an ownership row, copied into
      the row as given (an explicit null overrides a column default). */
  datatype OwnershipPayload = OwnershipPayload(
    cardUuid: string, conditionType: Option<string>, gradeScale: Option<string>,
    gradeValue: Option<string>, certNo: Option<string>, acquiredDate: Option<string>,
    pricePaidCents: Option<int>, currency: Option<string>, source: Option<string>,
    location: Option<string>, quantity: int, status: Option<string>, notes: Option<string>)

  function OwnershipUpdatedAt(o: Ownership): int {
    o.updatedAt
  }

  /** The WHERE clause: live rows, and the card filter only for a non-empty id. */
  function OwnershipFilter(cardUuid: Option<string>): Ownership -> bool {
    if Truthy(cardUuid) then (o: Ownership) => o.Live() && o.cardUuid == cardUuid.value
    else (o: Ownership) => o.Live()
  }

  /** GET /v1/ownership, newest update first. */
  function ListOwnership(t: Table<Ownership>, cardUuid: Option<string>): seq<Ownership>
    requires t.Valid()
  {
    SortDesc(Filter(t.Values(), OwnershipFilter(cardUuid)), OwnershipUpdatedAt)
  }

  /** The listing holds exactly the live records (of the given card, when one
      is named), each as often as it is stored, newest update first. */
  lemma ListOwnershipSpec(t: Table<Ownership>, cardUuid: Option<string>)
    requires t.Valid()
    ensures forall o :: o in ListOwnership(t, cardUuid) <==>
      (o in t.Values() && o.Live() && (Truthy(cardUuid) ==> o.cardUuid == cardUuid.value))
    ensures forall o :: multiset(ListOwnership(t, cardUuid))[o]
                     == (if o.Live() && (Truthy(cardUuid) ==> o.cardUuid == cardUuid.value) then multiset(t.Values())[o] else 0)
    ensures SortedDesc(ListOwnership(t, cardUuid), OwnershipUpdatedAt)
  {
    var p := OwnershipFilter(cardUuid);
    FilterMultiset(t.Values(), p);
    forall o ensures o in ListOwnership(t, cardUuid) <==>
      (o in t.Values() && o.Live() && (Truthy(cardUuid) ==> o.cardUuid == cardUuid.value))
    {
      assert o in ListOwnership(t, cardUuid) <==> o in multiset(Filter(t.Values(), p));
    }
  }

  /** The row create_ownership inserts. */
  function FromPayload(id: string, p: OwnershipPayload, now: Timestamp): (o: Ownership)
    ensures o.ownershipUuid == id && o.Live()
    ensures o.tenantId == DefaultTenant && o.schemaVersion == SchemaVersion
    ensures o.createdAt == now && o.updatedAt == now
    ensures o.cardUuid == p.cardUuid && o.conditionType == p.conditionType && o.gradeScale == p.gradeScale
    ensures o.gradeValue == p.gradeValue && o.certNo == p.certNo && o.acquiredDate == p.acquiredDate
    ensures o.pricePaidCents == p.pricePaidCents && o.currency == p.currency && o.source == p.source
    ensures o.location == p.location && o.quantity == p.quantity && o.status == p.status && o.notes == p.notes
  {
    NewOwnership(id, p.cardUuid, now).(
      conditionType := p.conditionType, gradeScale := p.gradeScale, gradeValue := p.gradeValue,
      certNo := p.certNo, acquiredDate := p.acquiredDate, pricePaidCents := p.pricePaidCents,
      currency := p.currency, source := p.source, location := p.location,
      quantity := p.quantity, status := p.status, notes := p.notes)
  }

  /** POST /v1/ownership: 400 unless some card row (deleted or not) has the
      payload's card_uuid; a taken primary key fails the commit. */
  method CreateOwnership(db: Database, uuid: string, p: OwnershipPayload, now: Timestamp)
    returns (r: Result<Ownership>)
    requires db.Valid()
    modifies db
    ensures db.Valid()
    ensures db.cards == old(db.cards) && db.media == old(db.media)
    ensures var id := "o_" + uuid;
      if p.cardUuid !in old(db.cards.rows) then
        r == Err(BadRequest("card_uuid does not exist")) && db.owners == old(db.owners)
      else if id in old(db.owners.rows) then
        r == Err(IntegrityError) && db.owners == old(db.owners)
      else
        r == Ok(FromPayload(id, p, now)) && db.owners == old(db.owners).Insert(id, FromPayload(id, p, now))
  {
    if p.cardUuid !in db.cards.rows {
      return Err(BadRequest("card_uuid does not exist"));
    }
    var id := "o_" + uuid;
    if id in db.owners.rows {
      return Err(IntegrityError);
    }
    var o := FromPayload(id, p, now);
    db.owners := db.owners.Insert(id, o);
    r := Ok(o);
  }

  /** The lookup of delete_ownership: 404 unless the record exists and is live. */
  function LiveOwnership(t: Table<Ownership>, id: string): (r: Result<Ownership>)
    ensures r.Ok? <==> id in t.rows && t.rows[id].Live()
    ensures r.Ok? ==> r.value == t.rows[id]
    ensures r.Err? ==> r.error == NotFound("Ownership not found")
  {
    if id in t.rows && t.rows[id].Live() then Ok(t.rows[id]) else Err(NotFound("Ownership not found"))
  }

  function SoftDeleted(t: Table<Ownership>, id: string, now: Timestamp): Table<Ownership>
    requires t.Valid() && id in t.rows
  {
    t.Put(id, t.rows[id].(deletedAt := Some(now)))
  }

  /** DELETE /v1/ownership/{id}: sets deleted_at on a live record. */
  method DeleteOwnership(db: Database, id: string, now: Timestamp) returns (r: Result<bool>)
    requires db.Valid()
    modifies db
    ensures db.Valid()
    ensures db.cards == old(db.cards) && db.media == old(db.media)
    ensures LiveOwnership(old(db.owners), id).Err? ==>
      r == Err(NotFound("Ownership not found")) && db.owners == old(db.owners)
    ensures LiveOwnership(old(db.owners), id).Ok? ==>
      r == Ok(true) && db.owners == SoftDeleted(old(db.owners), id, now)
  {
    var g := LiveOwnership(db.owners, id);
    if g.Err? {
      return Err(g.error);
    }
    db.owners := db.owners.Put(id, db.owners.rows[id].(deletedAt := Some(now)));
    r := Ok(true);
  }

  /** After a delete the record is gone from every listing, a second delete
      answers 404, and all other records are as they were. */
  lemma DeleteHidesOwnership(t: Table<Ownership>, id: string, now: Timestamp, cardUuid: Option<string>)
    requires t.Valid() && OwnershipKeys(t) && id in t.rows
    ensures LiveOwnership(SoftDeleted(t, id, now), id).Err?
    ensures forall k :: k in t.rows && k != id ==> SoftDeleted(t, id, now).rows[k] == t.rows[k]
    ensures forall o :: o in ListOwnership(SoftDeleted(t, id, now), cardUuid) ==> o.ownershipUuid != id
  {
    var t' := SoftDeleted(t, id, now);
    ListOwnershipSpec(t', cardUuid);
    forall o | o in ListOwnership(t', cardUuid) ensures o.ownershipUuid != id {
      InValues(t', o);
      var k :| k in t'.rows && t'.rows[k] == o;
      assert k != id;
    }
  }
}
