/** The media endpoints under /v1/media: photo upload for a card or an
    ownership record, with one live photo per side ("front"/"back") of a
    target, and the lookups that return the newest photo per side. */
module MediaRouter {
  import opened Common
  import opened Models
  import opened Query
  import opened Store

  const MaxSize: nat := 15 * 1024 * 1024
  const AllowedExt: set<string> := {".jpg", ".jpeg", ".png", ".webp"}
  const AllowedKinds: set<string> := {"front", "back"}
  const DefaultExt: string := ".jpg"
  const MediaPrefix: string := "/media/"

  // ------------------------------------------------------------------ urls

  /** _public_url: "/media/<rel>" for a non-empty relative path, else None. */
  function PublicUrl(rel: Option<string>): (u: Option<string>)
    ensures u.Some? <==> Truthy(rel)
    ensures u.Some? ==> u.value == MediaPrefix + rel.value
  {
    if Truthy(rel) then Some(MediaPrefix + rel.value) else None
  }

  /** _public_url(thumb_rel or path): the thumbnail when there is one, else
      the photo itself. */
  function ThumbUrl(thumbRel: Option<string>, path: string): Option<string> {
    PublicUrl(if Truthy(thumbRel) then thumbRel else Some(path))
  }

  lemma ThumbUrlFallback(thumbRel: Option<string>, path: string)
    ensures Truthy(thumbRel) ==> ThumbUrl(thumbRel, path) == Some(MediaPrefix + thumbRel.value)
    ensures !Truthy(thumbRel) ==> ThumbUrl(thumbRel, path) == PublicUrl(Some(path))
    ensures path != "" ==> ThumbUrl(thumbRel, path).Some?
  {
  }

  /** The media table has no thumbnail_path column, so the attribute lookups
      of the routes always find None. */
  const StoredThumbnail: Option<string> := None

  // ------------------------------------------------------------- splitext

  /** str.rfind for one character: the last index holding c, or -1. */
  function RFind(s: string, c: char): (r: int)
    ensures -1 <= r < |s|
    ensures r >= 0 ==> s[r] == c
    ensures forall j :: r < j < |s| ==> s[j] != c
  {
    if s == [] then -1 else if s[|s| - 1] == c then |s| - 1 else RFind(s[..|s| - 1], c)
  }

  /** os.path.splitext(p)[1] on a POSIX path: from the last dot of the last
      component, unless that component is only leading dots up to it. */
  function SplitExt(p: string): (ext: string)
    ensures ext == [] || (ext[0] == '.' && EndsWith(p, ext))
    ensures forall j :: 0 < j < |ext| ==> ext[j] != '.' && ext[j] != '/'
  {
    var sep := RFind(p, '/');
    var dot := RFind(p, '.');
    if dot > sep && exists j :: sep + 1 <= j < dot && p[j] != '.' then p[dot..] else ""
  }

  /** The upload's extension: lowercased, ".jpg" when the name has none. */
  function Ext(filename: Option<string>): (e: string)
    ensures e != ""
  {
    var x := Lower(SplitExt(filename.GetOr("")));
    if x == "" then DefaultExt else x
  }

  /** rfind is determined by the last occurrence. */
  lemma RFindIs(s: string, c: char, i: int)
    requires -1 <= i < |s| && (i >= 0 ==> s[i] == c)
    requires forall j :: i < j < |s| ==> s[j] != c
    ensures RFind(s, c) == i
  {
  }

  /** The extension is lowercased. */
  lemma ExtExamples()
    ensures Ext(Some("front.JPG")) == ".jpg"
  {
    RFindIs("front.JPG", '/', -1);
    RFindIs("front.JPG", '.', 5);
    assert "front.JPG"[0] != '.';
    assert SplitExt("front.JPG") == ".JPG";
    assert Lower(".JPG") == ".jpg";
  }

  /** The extension runs from the last dot of the last path component. */
  lemma ExtLastDotExample()
    ensures Ext(Some("scans/card.v2.png")) == ".png"
  {
    RFindIs("scans/card.v2.png", '/', 5);
    RFindIs("scans/card.v2.png", '.', 13);
    assert "scans/card.v2.png"[6] != '.';
    assert SplitExt("scans/card.v2.png") == ".png";
    assert Lower(".png") == ".png";
  }

  /** A name without an extension (a leading dot does not start one, nor
      does a dot in a directory name) gets ".jpg". */
  lemma ExtDefaultExamples()
    ensures Ext(Some(".webp")) == ".jpg"
    ensures Ext(Some("dir.d/photo")) == ".jpg"
    ensures Ext(None) == ".jpg"
  {
    RFindIs(".webp", '/', -1);
    RFindIs(".webp", '.', 0);
    assert SplitExt(".webp") == "";
    RFindIs("dir.d/photo", '/', 5);
    RFindIs("dir.d/photo", '.', 3);
    assert SplitExt("dir.d/photo") == "";
    assert SplitExt("") == "";
  }

  // ------------------------------------------------------------ validation

  /** The form fields of POST /v1/media/upload, with the file's name and
      byte length. */
  datatype Upload = Upload(
    cardUuid: Option<string>, ownershipUuid: Option<string>, kind: Option<string>,
    filename: Option<string>, size: nat)

  /** A given kind, stripped and lowercased, must be "front" or "back"; an
      absent or empty kind means none. */
  function KindNorm(kind: Option<string>): (r: Result<Option<string>>)
    ensures !Truthy(kind) ==> r == Ok(None)
    ensures Truthy(kind) ==> (r.Ok? <==> Lower(Strip(kind.value)) in AllowedKinds)
    ensures r.Ok? && Truthy(kind) ==> r.value == Some(Lower(Strip(kind.value)))
  {
    if !Truthy(kind) then Ok(None)
    else
      var k := Lower(Strip(kind.value));
      if k !in AllowedKinds then Err(BadRequest("kind must be one of ['back', 'front']")) else Ok(Some(k))
  }

  lemma TrimLeftExample()
    ensures TrimLeft(" Front ") == "Front "
  {
    assert IsSpace(" Front "[0]);
    assert " Front "[1..] == "Front ";
    TrimLeftNoop("Front ");
  }

  lemma TrimRightExample()
    ensures TrimRight("Front ") == "Front"
  {
    assert IsSpace("Front "[5]);
    assert "Front "[..5] == "Front";
    assert !IsSpace("Front"[4]);
  }

  lemma KindNormExamples()
    ensures KindNorm(Some(" Front ")) == Ok(Some("front"))
    ensures KindNorm(Some("BACK")) == Ok(Some("back"))
    ensures KindNorm(Some("side")).Err?
    ensures KindNorm(Some("")) == Ok(None)
  {
    TrimLeftExample();
    TrimRightExample();
    assert Strip(" Front ") == "Front";
    assert Lower("Front") == "front";
    StrippedIsFixpoint("BACK");
    assert Lower("BACK") == "back";
    StrippedIsFixpoint("side");
    assert Lower("side") == "side";
  }

  /** What a valid upload resolves to: the normalised kind and the extension. */
  datatype Checked = Checked(kind: Option<string>, ext: string)

  /** The checks of upload_media, in the order the handler makes them. */
  function ValidateUpload(cards: Table<Card>, owners: Table<Ownership>, u: Upload): Result<Checked> {
    if !Truthy(u.cardUuid) && !Truthy(u.ownershipUuid) then Err(BadRequest("Provide card_uuid or ownership_uuid"))
    else if Truthy(u.cardUuid) && u.cardUuid.value !in cards.rows then Err(BadRequest("card_uuid not found"))
    else if Truthy(u.ownershipUuid) && u.ownershipUuid.value !in owners.rows then Err(BadRequest("ownership_uuid not found"))
    else match KindNorm(u.kind)
      case Err(e) => Err(e)
      case Ok(k) =>
        var ext := Ext(u.filename);
        if ext !in AllowedExt then Err(BadRequest("Unsupported file type: " + ext + " (allowed: .jpeg, .jpg, .png, .webp)"))
        else if u.size > MaxSize then Err(PayloadTooLarge("File too large (> 15 MB)"))
        else Ok(Checked(k, ext))
  }

  /** An upload is accepted exactly when it names a target, every named
      target exists, the kind and extension are allowed and the file fits;
      each failure has its status, and an earlier check wins over a later one. */
  lemma ValidateUploadSpec(cards: Table<Card>, owners: Table<Ownership>, u: Upload)
    ensures var r := ValidateUpload(cards, owners, u);
      r.Ok? <==>
        && (Truthy(u.cardUuid) || Truthy(u.ownershipUuid))
        && (Truthy(u.cardUuid) ==> u.cardUuid.value in cards.rows)
        && (Truthy(u.ownershipUuid) ==> u.ownershipUuid.value in owners.rows)
        && KindNorm(u.kind).Ok?
        && Ext(u.filename) in AllowedExt
        && u.size <= MaxSize
    ensures var r := ValidateUpload(cards, owners, u);
      r.Err? ==> (Status(r.error) == 413 <==>
        && (Truthy(u.cardUuid) || Truthy(u.ownershipUuid))
        && (Truthy(u.cardUuid) ==> u.cardUuid.value in cards.rows)
        && (Truthy(u.ownershipUuid) ==> u.ownershipUuid.value in owners.rows)
        && KindNorm(u.kind).Ok?
        && Ext(u.filename) in AllowedExt)
    ensures var r := ValidateUpload(cards, owners, u);
      r.Err? ==> Status(r.error) == 400 || Status(r.error) == 413
    ensures var r := ValidateUpload(cards, owners, u);
      r.Ok? ==> r.value.kind == KindNorm(u.kind).value && r.value.ext == Ext(u.filename)
  {
  }

  // ------------------------------------------------------------ retirement

  /** Which earlier media a kinded upload replaces. */
  datatype Prior = ByCard(cardUuid: string, kind: string) | ByOwnership(ownershipUuid: string, kind: string)

  predicate IsPrior(m: Media, p: Prior) {
    && m.Live()
    && m.kind == Some(p.kind)
    && match p
       case ByCard(c, _) => m.cardUuid == Some(c)
       case ByOwnership(o, _) => m.ownershipUuid == Some(o)
  }

  /** A kinded upload replaces by card when it names a card, otherwise by
      ownership record; an upload without kind replaces nothing. */
  function PriorOf(u: Upload, kind: Option<string>): Option<Prior> {
    if kind.None? then None
    else if Truthy(u.cardUuid) then Some(ByCard(u.cardUuid.value, kind.value))
    else if Truthy(u.ownershipUuid) then Some(ByOwnership(u.ownershipUuid.value, kind.value))
    else None
  }

  function RetireOne(m: Media, p: Option<Prior>, now: Timestamp): Media {
    if p.Some? && IsPrior(m, p.value) then m.(deletedAt := Some(now)) else m
  }

  function RetireAll(t: Table<Media>, p: Option<Prior>, now: Timestamp): Table<Media> {
    Table(map k | k in t.rows :: RetireOne(t.rows[k], p, now), t.order)
  }

  /** Only deleted_at of live priors changes, so every invariant of the
      database survives retirement. */
  lemma RetireAllKeepsValid(cards: Table<Card>, owners: Table<Ownership>, media: Table<Media>, p: Option<Prior>, now: Timestamp)
    requires DbValid(cards, owners, media)
    ensures DbValid(cards, owners, RetireAll(media, p, now))
  {
    var r := RetireAll(media, p, now);
    assert r.rows.Keys == media.rows.Keys;
    forall k | k in r.rows
      ensures r.rows[k].mediaUuid == media.rows[k].mediaUuid && r.rows[k].tenantId == media.rows[k].tenantId
      ensures r.rows[k].cardUuid == media.rows[k].cardUuid && r.rows[k].ownershipUuid == media.rows[k].ownershipUuid
    {
    }
    assert r.Valid();
    assert MediaKeys(r);
    assert MediaRefs(r, cards, owners);
  }

  /** Rows that agree with the retirement at every position of the order are
      the retired table's rows. */
  lemma RetiredRows(t: Table<Media>, rows: map<string, Media>, p: Option<Prior>, now: Timestamp)
    requires t.Valid() && rows.Keys == t.rows.Keys
    requires forall j :: 0 <= j < |t.order| ==> rows[t.order[j]] == RetireOne(t.rows[t.order[j]], p, now)
    ensures rows == RetireAll(t, p, now).rows
  {
    forall k | k in t.rows ensures rows[k] == RetireOne(t.rows[k], p, now) {
      var j :| 0 <= j < |t.order| && t.order[j] == k;
    }
  }

  /** The loop over the priors' rows, in table order. */
  method RetireRows(order: seq<string>, rows0: map<string, Media>, p: Option<Prior>, now: Timestamp)
    returns (rows: map<string, Media>)
    requires forall j :: 0 <= j < |order| ==> order[j] in rows0
    requires forall j, j' :: 0 <= j < j' < |order| ==> order[j] != order[j']
    ensures rows.Keys == rows0.Keys
    ensures forall j :: 0 <= j < |order| ==> rows[order[j]] == RetireOne(rows0[order[j]], p, now)
  {
    rows := rows0;
    var i := 0;
    while i < |order|
      invariant 0 <= i <= |order|
      invariant rows.Keys == rows0.Keys
      invariant forall j :: 0 <= j < i ==> rows[order[j]] == RetireOne(rows0[order[j]], p, now)
      invariant forall j :: i <= j < |order| ==> rows[order[j]] == rows0[order[j]]
    {
      var k := order[i];
      var m := rows[k];
      if p.Some? && IsPrior(m, p.value) {
        rows := rows[k := m.(deletedAt := Some(now))];
      }
      i := i + 1;
    }
  }

  /** The query for priors and the loop over its result, fused into one scan
      in table order: each live prior gets deleted_at = now. */
  method RetirePriors(db: Database, p: Option<Prior>, now: Timestamp)
    requires db.Valid()
    modifies db
    ensures db.Valid()
    ensures db.cards == old(db.cards) && db.owners == old(db.owners)
    ensures db.media == RetireAll(old(db.media), p, now)
  {
    var order := db.media.order;
    var rows := RetireRows(order, db.media.rows, p, now);
    RetiredRows(db.media, rows, p, now);
    RetireAllKeepsValid(db.cards, db.owners, db.media, p, now);
    db.media := Table(rows, order);
  }

  // ----------------------------------------------------------------- upload

  /** The row upload_media inserts. PIL's image size (or (0, 0) when the
      image cannot be read) and the SHA-256 of the bytes are inputs. */
  function UploadedRow(id: string, u: Upload, c: Checked, sha: string, dims: Option<(nat, nat)>, now: Timestamp): (m: Media)
    ensures m.mediaUuid == id && m.path == id + c.ext && m.Live()
    ensures m.cardUuid == u.cardUuid && m.ownershipUuid == u.ownershipUuid && m.kind == c.kind
    ensures m.tenantId == DefaultTenant && m.createdAt == now && m.updatedAt == now
    ensures m.schemaVersion == SchemaVersion
    ensures m.filesizeBytes == Some(NatToString(u.size)) && m.sha256 == Some(sha)
    ensures dims.Some? ==> m.width == Some(NatToString(dims.value.0)) && m.height == Some(NatToString(dims.value.1))
    ensures dims.None? ==> m.width == Some("0") && m.height == Some("0")
  {
    var (w, h) := dims.GetOr((0, 0));
    NewMedia(id, id + c.ext, now).(
      cardUuid := u.cardUuid, ownershipUuid := u.ownershipUuid, kind := c.kind,
      sha256 := Some(sha), width := Some(NatToString(w)), height := Some(NatToString(h)),
      filesizeBytes := Some(NatToString(u.size)))
  }

  datatype UploadResponse = UploadResponse(mediaUuid: string, kind: Option<string>, url: Option<string>, thumbUrl: Option<string>)

  /** The database after an accepted upload: priors retired, new row added. */
  function Uploaded(media: Table<Media>, u: Upload, c: Checked, m: Media, now: Timestamp): Table<Media>
    requires media.Valid() && m.mediaUuid !in media.rows
  {
    RetireAll(media, PriorOf(u, c.kind), now).Insert(m.mediaUuid, m)
  }

  /** POST /v1/media/upload. The new id is "m_" + uuid; a taken id fails the
      commit and rolls back the retirement with it. The thumbnail made from
      the file is discarded because no column can hold it. */
  method UploadMedia(db: Database, u: Upload, uuid: string, sha: string, dims: Option<(nat, nat)>,
                     thumbRel: Option<string>, now: Timestamp)
    returns (r: Result<UploadResponse>)
    requires db.Valid()
    modifies db
    ensures db.Valid()
    ensures db.cards == old(db.cards) && db.owners == old(db.owners)
    ensures ValidateUpload(old(db.cards), old(db.owners), u).Err? ==>
      r == Err(ValidateUpload(old(db.cards), old(db.owners), u).error) && db.media == old(db.media)
    ensures ValidateUpload(old(db.cards), old(db.owners), u).Ok? ==>
      var c := ValidateUpload(old(db.cards), old(db.owners), u).value;
      var id := "m_" + uuid;
      var m := UploadedRow(id, u, c, sha, dims, now);
      if id in old(db.media.rows) then r == Err(IntegrityError) && db.media == old(db.media)
      else
        && db.media == Uploaded(old(db.media), u, c, m, now)
        && r == Ok(UploadResponse(id, c.kind, Some(MediaPrefix + m.path), Some(MediaPrefix + m.path)))
  {
    var v := ValidateUpload(db.cards, db.owners, u);
    if v.Err? {
      return Err(v.error);
    }
    var c := v.value;
    var id := "m_" + uuid;
    if id in db.media.rows {
      return Err(IntegrityError);
    }
    var m := UploadedRow(id, u, c, sha, dims, now);
    RetirePriors(db, PriorOf(u, c.kind), now);
    var thumb := StoredThumbnail;
    db.media := db.media.Insert(id, m);
    r := Ok(UploadResponse(id, m.kind, PublicUrl(Some(m.path)), ThumbUrl(thumb, m.path)));
  }

  /** After a kinded upload for a card, the new row is the only live media of
      that card and side; rows that are not priors are untouched. */
  lemma UploadReplaces(media: Table<Media>, u: Upload, c: Checked, m: Media, now: Timestamp)
    requires media.Valid() && m.mediaUuid !in media.rows && m.Live()
    requires m.cardUuid == u.cardUuid && m.ownershipUuid == u.ownershipUuid && m.kind == c.kind
    ensures var t := Uploaded(media, u, c, m, now);
      && (c.kind.Some? && Truthy(u.cardUuid) ==>
            forall k :: k in t.rows && IsPrior(t.rows[k], ByCard(u.cardUuid.value, c.kind.value)) ==> k == m.mediaUuid)
      && (c.kind.Some? && !Truthy(u.cardUuid) && Truthy(u.ownershipUuid) ==>
            forall k :: k in t.rows && IsPrior(t.rows[k], ByOwnership(u.ownershipUuid.value, c.kind.value)) ==> k == m.mediaUuid)
      && (forall k :: k in media.rows && !(PriorOf(u, c.kind).Some? && IsPrior(media.rows[k], PriorOf(u, c.kind).value))
            ==> t.rows[k] == media.rows[k])
      && t.rows[m.mediaUuid] == m
  {
  }

  /** An upload without kind retires nothing. */
  lemma UnkindedUploadKeepsAll(media: Table<Media>, u: Upload, c: Checked, now: Timestamp)
    requires c.kind.None?
    ensures RetireAll(media, PriorOf(u, c.kind), now) == media
  {
    assert RetireAll(media, PriorOf(u, c.kind), now).rows == media.rows;
  }

  // --------------------------------------------------------- latest / pair

  function CreatedAt(m: Media): int {
    m.createdAt
  }

  /** ORDER BY created_at DESC, then .first(). */
  function Newest(rows: seq<Media>): Option<Media> {
    if rows == [] then None else Some(SortDesc(rows, CreatedAt)[0])
  }

  /** The newest row is one of the rows, created no earlier than any other,
      and there is none only when there are no rows. */
  lemma NewestSpec(rows: seq<Media>)
    ensures Newest(rows).None? <==> rows == []
    ensures Newest(rows).Some? ==> Newest(rows).value in rows
    ensures Newest(rows).Some? ==> forall x :: x in rows ==> x.createdAt <= Newest(rows).value.createdAt
  {
    if rows != [] {
      var s := SortDesc(rows, CreatedAt);
      SortedDescHeadIsMax(rows, CreatedAt);
      assert s[0] in multiset(rows);
    }
  }

  /** A live photo of the card with exactly this kind. */
  function SideFilter(cardUuid: string, kind: string): Media -> bool {
    (m: Media) => m.Live() && m.cardUuid == Some(cardUuid) && m.kind == Some(kind)
  }

  datatype MediaRef = MediaRef(mediaUuid: string, url: Option<string>, thumbUrl: Option<string>, createdAt: Timestamp)

  function RefOf(m: Media): MediaRef {
    MediaRef(m.mediaUuid, PublicUrl(Some(m.path)), ThumbUrl(StoredThumbnail, m.path), m.createdAt)
  }

  /** latest_by(kind) inside pair_for_card. */
  function LatestBy(t: Table<Media>, cardUuid: string, kind: string): Option<MediaRef>
    requires t.Valid()
  {
    match Newest(Filter(t.Values(), SideFilter(cardUuid, kind)))
    case None => None
    case Some(m) => Some(RefOf(m))
  }

  datatype Pair = Pair(front: Option<MediaRef>, back: Option<MediaRef>)

  /** GET /v1/media/pair. */
  function PairForCard(t: Table<Media>, cardUuid: string): Pair
    requires t.Valid()
  {
    Pair(LatestBy(t, cardUuid, "front"), LatestBy(t, cardUuid, "back"))
  }

  /** Each side of the pair is the newest live media of that card with exactly
      that kind, or None when there is none. */
  lemma LatestBySpec(t: Table<Media>, cardUuid: string, kind: string)
    requires t.Valid()
    ensures LatestBy(t, cardUuid, kind).None? <==>
      forall m :: m in t.Values() ==> !(m.Live() && m.cardUuid == Some(cardUuid) && m.kind == Some(kind))
    ensures LatestBy(t, cardUuid, kind).Some? ==>
      exists m :: m in t.Values() && m.Live() && m.cardUuid == Some(cardUuid) && m.kind == Some(kind)
        && LatestBy(t, cardUuid, kind) == Some(RefOf(m))
        && forall x :: x in t.Values() && x.Live() && x.cardUuid == Some(cardUuid) && x.kind == Some(kind)
             ==> x.createdAt <= m.createdAt
  {
    var rows := Filter(t.Values(), SideFilter(cardUuid, kind));
    FilterMultiset(t.Values(), SideFilter(cardUuid, kind));
    NewestSpec(rows);
    if rows == [] {
    } else {
      var m := Newest(rows).value;
      assert SideFilter(cardUuid, kind)(m);
      forall x | x in t.Values() && x.Live() && x.cardUuid == Some(cardUuid) && x.kind == Some(kind)
        ensures x.createdAt <= m.createdAt
      {
        assert SideFilter(cardUuid, kind)(x);
      }
    }
  }

  /** What one side of the pair must be: None exactly when the card has no
      live media of that kind, otherwise the reference of the newest one. */
  predicate IsNewestSide(t: Table<Media>, cardUuid: string, kind: string, r: Option<MediaRef>)
    requires t.Valid()
  {
    && (r.None? <==> forall m :: m in t.Values() ==> !(m.Live() && m.cardUuid == Some(cardUuid) && m.kind == Some(kind)))
    && (r.Some? ==>
          exists m :: m in t.Values() && m.Live() && m.cardUuid == Some(cardUuid) && m.kind == Some(kind)
            && r == Some(RefOf(m))
            && forall x :: x in t.Values() && x.Live() && x.cardUuid == Some(cardUuid) && x.kind == Some(kind)
                 ==> x.createdAt <= m.createdAt)
  }

  /** The pair's front is the newest live front photo of the card and its
      back the newest live back photo, each None when there is none. */
  lemma PairForCardSpec(t: Table<Media>, cardUuid: string)
    requires t.Valid()
    ensures IsNewestSide(t, cardUuid, "front", PairForCard(t, cardUuid).front)
    ensures IsNewestSide(t, cardUuid, "back", PairForCard(t, cardUuid).back)
  {
    LatestBySpec(t, cardUuid, "front");
    LatestBySpec(t, cardUuid, "back");
  }

  /** The answer of GET /v1/media/latest. */
  datatype Latest =
    | NoMedia
    | Latest(mediaUuid: string, kind: Option<string>, url: Option<string>, thumbUrl: Option<string>, createdAt: Timestamp)

  /** The latest endpoint's filter: a live photo of the card, and of the
      stripped, lowercased kind when one is given. */
  function LatestFilter(cardUuid: string, kind: Option<string>): Media -> bool {
    if Truthy(kind) then (m: Media) => m.Live() && m.cardUuid == Some(cardUuid) && m.kind == Some(Lower(Strip(kind.value)))
    else (m: Media) => m.Live() && m.cardUuid == Some(cardUuid)
  }

  /** GET /v1/media/latest. */
  function LatestForCard(t: Table<Media>, cardUuid: string, kind: Option<string>): Latest
    requires t.Valid()
  {
    match Newest(Filter(t.Values(), LatestFilter(cardUuid, kind)))
    case None => NoMedia
    case Some(m) => Latest(m.mediaUuid, m.kind, PublicUrl(Some(m.path)), ThumbUrl(StoredThumbnail, m.path), m.createdAt)
  }

  /** The latest photo is a live photo of the card (of the requested kind),
      created no earlier than any other such photo. */
  lemma LatestForCardSpec(t: Table<Media>, cardUuid: string, kind: Option<string>)
    requires t.Valid()
    ensures LatestForCard(t, cardUuid, kind).NoMedia? <==>
      forall m :: m in t.Values() ==> !LatestFilter(cardUuid, kind)(m)
    ensures LatestForCard(t, cardUuid, kind).Latest? ==>
      exists m :: m in t.Values() && LatestFilter(cardUuid, kind)(m)
        && LatestForCard(t, cardUuid, kind)
             == Latest(m.mediaUuid, m.kind, PublicUrl(Some(m.path)), ThumbUrl(StoredThumbnail, m.path), m.createdAt)
        && forall x :: x in t.Values() && LatestFilter(cardUuid, kind)(x) ==> x.createdAt <= m.createdAt
  {
    var rows := Filter(t.Values(), LatestFilter(cardUuid, kind));
    FilterMultiset(t.Values(), LatestFilter(cardUuid, kind));
    NewestSpec(rows);
  }

  // ------------------------------------------------------------- list_media

  /** The list endpoint's filter: live, and each non-empty parameter applied. */
  predicate ListMatch(m: Media, cardUuid: Option<string>, ownershipUuid: Option<string>, kind: Option<string>) {
    && m.Live()
    && (Truthy(cardUuid) ==> m.cardUuid == cardUuid)
    && (Truthy(ownershipUuid) ==> m.ownershipUuid == ownershipUuid)
    && (Truthy(kind) ==> m.kind == Some(Lower(Strip(kind.value))))
  }

  function ListFilter(cardUuid: Option<string>, ownershipUuid: Option<string>, kind: Option<string>): Media -> bool {
    (m: Media) => ListMatch(m, cardUuid, ownershipUuid, kind)
  }

  /** The rows list_media selects, newest first. */
  function ListedMedia(t: Table<Media>, cardUuid: Option<string>, ownershipUuid: Option<string>, kind: Option<string>): seq<Media>
    requires t.Valid()
  {
    SortDesc(Filter(t.Values(), ListFilter(cardUuid, ownershipUuid, kind)), CreatedAt)
  }

  lemma ListedMediaSpec(t: Table<Media>, cardUuid: Option<string>, ownershipUuid: Option<string>, kind: Option<string>)
    requires t.Valid()
    ensures forall m :: m in ListedMedia(t, cardUuid, ownershipUuid, kind) <==>
      m in t.Values() && ListMatch(m, cardUuid, ownershipUuid, kind)
    ensures SortedDesc(ListedMedia(t, cardUuid, ownershipUuid, kind), CreatedAt)
  {
    var p := ListFilter(cardUuid, ownershipUuid, kind);
    FilterMultiset(t.Values(), p);
    forall m ensures m in ListedMedia(t, cardUuid, ownershipUuid, kind) <==> m in t.Values() && ListMatch(m, cardUuid, ownershipUuid, kind) {
      assert m in ListedMedia(t, cardUuid, ownershipUuid, kind) <==> m in multiset(Filter(t.Values(), p));
    }
  }

  datatype MediaItem = MediaItem(
    mediaUuid: string, cardUuid: Option<string>, ownershipUuid: Option<string>, kind: Option<string>,
    url: Option<string>, thumbUrl: Option<string>, createdAt: Timestamp)

  /** GET /v1/media: one item per selected row, in the same order, each with
      the row's own ids and kind and its public urls. */
  method ListMedia(t: Table<Media>, cardUuid: Option<string>, ownershipUuid: Option<string>, kind: Option<string>)
    returns (out: seq<MediaItem>)
    requires t.Valid()
    ensures var rows := ListedMedia(t, cardUuid, ownershipUuid, kind);
      && |out| == |rows|
      && forall i :: 0 <= i < |rows| ==>
           && out[i].mediaUuid == rows[i].mediaUuid && out[i].cardUuid == rows[i].cardUuid
           && out[i].ownershipUuid == rows[i].ownershipUuid && out[i].kind == rows[i].kind
           && out[i].createdAt == rows[i].createdAt
           && out[i].url == PublicUrl(Some(rows[i].path)) && out[i].thumbUrl == out[i].url
  {
    var rows := ListedMedia(t, cardUuid, ownershipUuid, kind);
    out := [];
    var i := 0;
    while i < |rows|
      invariant 0 <= i <= |rows| && |out| == i
      invariant forall j :: 0 <= j < i ==>
           && out[j].mediaUuid == rows[j].mediaUuid && out[j].cardUuid == rows[j].cardUuid
           && out[j].ownershipUuid == rows[j].ownershipUuid && out[j].kind == rows[j].kind
           && out[j].createdAt == rows[j].createdAt
           && out[j].url == PublicUrl(Some(rows[j].path)) && out[j].thumbUrl == out[j].url
    {
      var m := rows[i];
      out := out + [MediaItem(m.mediaUuid, m.cardUuid, m.ownershipUuid, m.kind,
                              PublicUrl(Some(m.path)), ThumbUrl(StoredThumbnail, m.path), m.createdAt)];
      i := i + 1;
    }
  }
}
