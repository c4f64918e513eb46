/** The rows of the three tables the routers use (cards, ownership, media),
    with the column defaults of the ORM declarations. Timestamps are the
    server's UTC clock readings as comparable integers. */
module Models {
  import opened Common

  type Timestamp = int

  const DefaultTenant: string := "local"
  const SchemaVersion: string := "v1"
  const DefaultCurrency: string := "USD"
  const DefaultQuantity: int := 1

  // ------------------------------------------------------------------ Card

  datatype Card = Card(
    cardUuid: string,
    tenantId: string,
    schemaVersion: string,
    createdAt: Timestamp,
    updatedAt: Timestamp,
    deletedAt: Option<Timestamp>,
    year: Option<int>,
    brand: Option<string>,
    setName: Option<string>,
    subset: Option<string>,
    cardNo: Option<string>,
    player: Option<string>,
    team: Option<string>,
    sport: Option<string>,
    parallel: Option<string>,
    variant: Option<string>,
    printRun: Option<string>,
    notes: Option<string>,
    canonicalKey: Option<string>,
    createdByUserId: Option<string>,
    updatedByUserId: Option<string>)
  {
    /** A row is live while its deleted_at is NULL. */
    predicate Live() {
      deletedAt.None?
    }
  }

  /** The nullable text columns of a card that the API lets a client set. */
  datatype TextField =
    | Brand | SetName | Subset | CardNo | Player | Team
    | Sport | Parallel | Variant | PrintRun | Notes

  function Text(c: Card, f: TextField): Option<string> {
    match f
    case Brand => c.brand
    case SetName => c.setName
    case Subset => c.subset
    case CardNo => c.cardNo
    case Player => c.player
    case Team => c.team
    case Sport => c.sport
    case Parallel => c.parallel
    case Variant => c.variant
    case PrintRun => c.printRun
    case Notes => c.notes
  }

  /** setattr(card, f, v) for one text column. */
  function WithText(c: Card, f: TextField, v: Option<string>): (r: Card)
    ensures Text(r, f) == v
    ensures forall g :: g != f ==> Text(r, g) == Text(c, g)
    ensures r.year == c.year && r.cardUuid == c.cardUuid && r.tenantId == c.tenantId
    ensures r.createdAt == c.createdAt && r.updatedAt == c.updatedAt && r.deletedAt == c.deletedAt
    ensures r.canonicalKey == c.canonicalKey
  {
    match f
    case Brand => c.(brand := v)
    case SetName => c.(setName := v)
    case Subset => c.(subset := v)
    case CardNo => c.(cardNo := v)
    case Player => c.(player := v)
    case Team => c.(team := v)
    case Sport => c.(sport := v)
    case Parallel => c.(parallel := v)
    case Variant => c.(variant := v)
    case PrintRun => c.(printRun := v)
    case Notes => c.(notes := v)
  }

  /** A card built from the column defaults alone: tenant "local", schema
      "v1", both timestamps the given clock reading, not deleted, every
      nullable column NULL. */
  function NewCard(id: string, now: Timestamp): (c: Card)
    ensures c.cardUuid == id && c.Live()
    ensures c.tenantId == DefaultTenant && c.schemaVersion == SchemaVersion
    ensures c.createdAt == now && c.updatedAt == now
    ensures c.year.None? && c.canonicalKey.None?
    ensures forall f :: Text(c, f).None?
  {
    Card(id, DefaultTenant, SchemaVersion, now, now, None,
         None, None, None, None, None, None, None, None, None, None, None, None,
         None, None, None)
  }

  // ------------------------------------------------------------- Ownership

  datatype Ownership = Ownership(
    ownershipUuid: string,
    tenantId: string,
    schemaVersion: string,
    createdAt: Timestamp,
    updatedAt: Timestamp,
    deletedAt: Option<Timestamp>,
    cardUuid: string,
    conditionType: Option<string>,
    gradeScale: Option<string>,
    gradeValue: Option<string>,
    certNo: Option<string>,
    acquiredDate: Option<string>,
    pricePaidCents: Option<int>,
    currency: Option<string>,
    source: Option<string>,
    location: Option<string>,
    quantity: int,
    status: Option<string>,
    notes: Option<string>)
  {
    predicate Live() {
      deletedAt.None?
    }
  }

  /** An ownership row from the column defaults: quantity 1, currency "USD". */
  function NewOwnership(id: string, cardUuid: string, now: Timestamp): (o: Ownership)
    ensures o.ownershipUuid == id && o.cardUuid == cardUuid && o.Live()
    ensures o.tenantId == DefaultTenant && o.schemaVersion == SchemaVersion
    ensures o.createdAt == now && o.updatedAt == now
    ensures o.quantity == DefaultQuantity && o.currency == Some(DefaultCurrency)
  {
    Ownership(id, DefaultTenant, SchemaVersion, now, now, None, cardUuid,
              None, None, None, None, None, None, Some(DefaultCurrency), None, None,
              DefaultQuantity, None, None)
  }

  // ----------------------------------------------------------------- Media

  datatype Media = Media(
    mediaUuid: string,
    tenantId: string,
    schemaVersion: string,
    createdAt: Timestamp,
    updatedAt: Timestamp,
    deletedAt: Option<Timestamp>,
    ownershipUuid: Option<string>,
    cardUuid: Option<string>,
    path: string,
    kind: Option<string>,
    sha256: Option<string>,
    phash: Option<string>,
    width: Option<string>,
    height: Option<string>,
    filesizeBytes: Option<string>,
    notes: Option<string>)
  {
    predicate Live() {
      deletedAt.None?
    }
  }

  /** A media row from the column defaults and its one required column. */
  function NewMedia(id: string, path: string, now: Timestamp): (m: Media)
    ensures m.mediaUuid == id && m.path == path && m.Live()
    ensures m.tenantId == DefaultTenant && m.schemaVersion == SchemaVersion
    ensures m.createdAt == now && m.updatedAt == now
    ensures m.cardUuid.None? && m.ownershipUuid.None? && m.kind.None?
  {
    Media(id, DefaultTenant, SchemaVersion, now, now, None, None, None, path,
          None, None, None, None, None, None, None)
  }

  // ------------------------------------------------- table-level constraints

  /** UNIQUE (tenant_id, canonical_key); NULL keys never collide. */
  predicate UniqueCanonical(rows: map<string, Card>) {
    forall a, b ::
      (a in rows && b in rows && a != b && rows[a].canonicalKey.Some? && rows[a].tenantId == rows[b].tenantId)
      ==> rows[a].canonicalKey != rows[b].canonicalKey
  }

  /** Whether some card other than `except` already holds this key. */
  predicate KeyTaken(rows: map<string, Card>, tenant: string, key: Option<string>, except: string) {
    key.Some? && exists id :: id in rows && id != except && rows[id].tenantId == tenant && rows[id].canonicalKey == key
  }

  /** Giving one card a key that no other card of its tenant holds keeps the
      constraint. */
  lemma {:induction false} PutKeepsUnique(rows: map<string, Card>, id: string, c: Card)
    requires UniqueCanonical(rows)
    requires !KeyTaken(rows, c.tenantId, c.canonicalKey, id)
    ensures UniqueCanonical(rows[id := c])
  {
    var r := rows[id := c];
    forall a, b | a in r && b in r && a != b && r[a].canonicalKey.Some? && r[a].tenantId == r[b].tenantId
      ensures r[a].canonicalKey != r[b].canonicalKey
    {
      if a == id {
        assert b in rows && b != id;
      } else if b == id {
        assert a in rows && a != id;
      }
    }
  }
}
