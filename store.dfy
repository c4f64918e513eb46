/** The database as the routers see it through their session: three tables,
    each a map from primary key to row plus the order in which rows were
    inserted (the order in which a scan returns them). */
module Store {
  import opened Common
  import opened Models

  /** The HTTP errors the routers raise; IntegrityError is a failed commit
      (a key or uniqueness violation), which the framework answers with 500. */
  datatype ApiError =
    | BadRequest(detail: string)
    | NotFound(detail: string)
    | PayloadTooLarge(detail: string)
    | IntegrityError

  function Status(e: ApiError): int {
    match e
    case BadRequest(_) => 400
    case NotFound(_) => 404
    case PayloadTooLarge(_) => 413
    case IntegrityError => 500
  }

  datatype Result<+T> = Ok(value: T) | Err(error: ApiError)

  datatype Table<T> = Table(rows: map<string, T>, order: seq<string>) {

    /** Every key appears exactly once in the insertion order. */
    predicate Valid() {
      && (forall i :: 0 <= i < |order| ==> order[i] in rows)
      && (forall k :: k in rows ==> k in order)
      && (forall i, j :: 0 <= i < j < |order| ==> order[i] != order[j])
    }

    /** The rows in scan order. */
    function Values(): (vs: seq<T>)
      requires Valid()
      ensures |vs| == |order|
      ensures forall i :: 0 <= i < |order| ==> vs[i] == rows[order[i]]
    {
      seq(|order|, i requires 0 <= i < |order| && Valid() => rows[order[i]])
    }

    /** INSERT of a row under a new primary key. */
    function Insert(id: string, row: T): (t: Table<T>)
      requires Valid() && id !in rows
      ensures t.Valid()
      ensures t.rows == rows[id := row] && t.order == order + [id]
    {
      var t := Table(rows[id := row], order + [id]);
      assert forall k :: k in t.rows ==> k in t.order by {
        forall k | k in t.rows ensures k in t.order {
          if k != id {
            var i :| 0 <= i < |order| && order[i] == k;
            assert t.order[i] == k;
          } else {
            assert t.order[|order|] == id;
          }
        }
      }
      t
    }

    /** UPDATE of the row stored under an existing key. */
    function Put(id: string, row: T): (t: Table<T>)
      requires Valid() && id in rows
      ensures t.Valid()
      ensures t.rows == rows[id := row] && t.order == order
      ensures forall i :: 0 <= i < |order| ==> t.Values()[i] == if order[i] == id then row else Values()[i]
    {
      Table(rows[id := row], order)
    }
  }

  /** A scan after an INSERT returns the new row last. */
  lemma InsertValues<T>(t: Table<T>, id: string, row: T)
    requires t.Valid() && id !in t.rows
    ensures t.Insert(id, row).Values() == t.Values() + [row]
  {
  }

  function EmptyTable<T>(): (t: Table<T>)
    ensures t.Valid() && t.Values() == []
  {
    Table(map[], [])
  }

  /** A value is among a table's rows exactly when some key stores it. */
  lemma InValues<T>(t: Table<T>, x: T)
    requires t.Valid()
    ensures x in t.Values() <==> exists k :: k in t.rows && t.rows[k] == x
  {
    if exists k :: k in t.rows && t.rows[k] == x {
      var k :| k in t.rows && t.rows[k] == x;
      var i :| 0 <= i < |t.order| && t.order[i] == k;
      assert t.Values()[i] == x;
    }
  }

  // ------------------------------------------- inserting a batch of rows

  /** The keys of a batch of rows, each row's key given by `key`. */
  function Keys<T>(xs: seq<T>, key: T -> string): set<string> {
    if xs == [] then {} else Keys(xs[..|xs| - 1], key) + {key(xs[|xs| - 1])}
  }

  /** The keys of a batch of rows, in order. */
  function KeyList<T>(xs: seq<T>, key: T -> string): (ks: seq<string>)
    ensures |ks| == |xs|
  {
    if xs == [] then [] else KeyList(xs[..|xs| - 1], key) + [key(xs[|xs| - 1])]
  }

  /** The batch can be committed: each row's key is neither taken nor used
      by an earlier row of the batch. */
  predicate FreshKeys<T>(t: Table<T>, xs: seq<T>, key: T -> string) {
    if xs == [] then true
    else
      var n := |xs| - 1;
      FreshKeys(t, xs[..n], key) && key(xs[n]) !in t.rows && key(xs[n]) !in Keys(xs[..n], key)
  }

  /** A row's key is among the batch's keys. */
  lemma {:induction false} KeysHas<T>(xs: seq<T>, key: T -> string, j: nat)
    requires j < |xs|
    ensures key(xs[j]) in Keys(xs, key)
  {
    var n := |xs| - 1;
    if j < n {
      KeysHas(xs[..n], key, j);
      assert xs[..n][j] == xs[j];
    }
  }

  /** Every key of the batch is some row's. */
  lemma {:induction false} KeysFrom<T>(xs: seq<T>, key: T -> string, k: string) returns (j: nat)
    requires k in Keys(xs, key)
    ensures j < |xs| && key(xs[j]) == k
  {
    var n := |xs| - 1;
    if k == key(xs[n]) {
      j := n;
    } else {
      j := KeysFrom(xs[..n], key, k);
      assert xs[..n][j] == xs[j];
    }
  }

  lemma KeysSpec<T>(xs: seq<T>, key: T -> string)
    ensures forall k :: k in Keys(xs, key) <==> exists j :: 0 <= j < |xs| && key(xs[j]) == k
  {
    forall k ensures k in Keys(xs, key) <==> exists j :: 0 <= j < |xs| && key(xs[j]) == k {
      if k in Keys(xs, key) {
        var j := KeysFrom(xs, key, k);
      }
      if exists j :: 0 <= j < |xs| && key(xs[j]) == k {
        var j :| 0 <= j < |xs| && key(xs[j]) == k;
        KeysHas(xs, key, j);
      }
    }
  }

  /** FreshKeys means: no key of the batch is taken, and no two rows of the
      batch share a key. */
  lemma {:induction false} FreshKeysSpec<T>(t: Table<T>, xs: seq<T>, key: T -> string)
    ensures FreshKeys(t, xs, key) <==>
      && (forall j :: 0 <= j < |xs| ==> key(xs[j]) !in t.rows)
      && (forall j, j' :: 0 <= j < j' < |xs| ==> key(xs[j]) != key(xs[j']))
  {
    if xs != [] {
      var n := |xs| - 1;
      var front := xs[..n];
      FreshKeysSpec(t, front, key);
      assert forall j :: 0 <= j < n ==> front[j] == xs[j];
      if (forall j :: 0 <= j < |xs| ==> key(xs[j]) !in t.rows)
        && (forall j, j' :: 0 <= j < j' < |xs| ==> key(xs[j]) != key(xs[j']))
      {
        assert forall j, j' :: 0 <= j < j' < n ==> key(front[j]) != key(front[j']);
        if key(xs[n]) in Keys(front, key) {
          var j := KeysFrom(front, key, key(xs[n]));
        }
      }
      if FreshKeys(t, xs, key) {
        forall j, j' | 0 <= j < j' < |xs| ensures key(xs[j]) != key(xs[j']) {
          if j' == n {
            KeysHas(front, key, j);
          } else {
            assert key(front[j]) != key(front[j']);
          }
        }
      }
    }
  }

  /** One more row can join the batch exactly when its key is neither taken
      nor in the batch. */
  lemma FreshSnoc<T>(t: Table<T>, xs: seq<T>, key: T -> string, x: T)
    ensures FreshKeys(t, xs + [x], key) <==> FreshKeys(t, xs, key) && key(x) !in t.rows && key(x) !in Keys(xs, key)
  {
    assert (xs + [x])[..|xs|] == xs;
  }

  /** Committing the batch: each row is inserted under its own key, in
      order, and no other key appears. */
  function InsertAll<T>(t: Table<T>, xs: seq<T>, key: T -> string): (r: Table<T>)
    requires t.Valid() && FreshKeys(t, xs, key)
    ensures r.Valid()
    ensures forall k :: k in r.rows ==> k in t.rows || k in Keys(xs, key)
  {
    if xs == [] then t
    else
      var n := |xs| - 1;
      InsertAll(t, xs[..n], key).Insert(key(xs[n]), xs[n])
  }

  /** Committing one more row inserts it after the rest of the batch. */
  lemma InsertAllSnoc<T>(t: Table<T>, xs: seq<T>, key: T -> string, x: T)
    requires t.Valid() && FreshKeys(t, xs + [x], key)
    ensures FreshKeys(t, xs, key) && key(x) !in InsertAll(t, xs, key).rows
    ensures InsertAll(t, xs + [x], key) == InsertAll(t, xs, key).Insert(key(x), x)
  {
    assert (xs + [x])[..|xs|] == xs;
  }

  /** A scan returns the existing rows first, then the batch in order. */
  lemma {:induction false} InsertAllOrder<T>(t: Table<T>, xs: seq<T>, key: T -> string)
    requires t.Valid() && FreshKeys(t, xs, key)
    ensures InsertAll(t, xs, key).order == t.order + KeyList(xs, key)
  {
    if xs != [] {
      var n := |xs| - 1;
      InsertAllOrder(t, xs[..n], key);
    }
  }

  /** A row that was there stays as it was. */
  lemma {:induction false} InsertAllKeeps<T>(t: Table<T>, xs: seq<T>, key: T -> string, k: string)
    requires t.Valid() && FreshKeys(t, xs, key) && k in t.rows
    ensures k in InsertAll(t, xs, key).rows && InsertAll(t, xs, key).rows[k] == t.rows[k]
  {
    if xs != [] {
      InsertAllKeeps(t, xs[..|xs| - 1], key, k);
    }
  }

  /** A row of the batch sits under its own key. */
  lemma {:induction false} InsertAllHas<T>(t: Table<T>, xs: seq<T>, key: T -> string, j: nat)
    requires t.Valid() && FreshKeys(t, xs, key) && j < |xs|
    ensures key(xs[j]) in InsertAll(t, xs, key).rows && InsertAll(t, xs, key).rows[key(xs[j])] == xs[j]
  {
    var n := |xs| - 1;
    if j < n {
      var front := xs[..n];
      InsertAllHas(t, front, key, j);
      KeysHas(front, key, j);
      assert front[j] == xs[j];
    }
  }

  /** After the commit a key is present exactly when it was before or is a
      key of the batch. */
  lemma InsertAllCovers<T>(t: Table<T>, xs: seq<T>, key: T -> string, k: string)
    requires t.Valid() && FreshKeys(t, xs, key)
    ensures k in InsertAll(t, xs, key).rows <==> k in t.rows || k in Keys(xs, key)
  {
    if k in t.rows {
      InsertAllKeeps(t, xs, key, k);
    } else if k in Keys(xs, key) {
      var j := KeysFrom(xs, key, k);
      InsertAllHas(t, xs, key, j);
    }
  }

  /** The existing rows stay as they were and every row of the batch sits
      under its own key. */
  lemma InsertAllRows<T>(t: Table<T>, xs: seq<T>, key: T -> string)
    requires t.Valid() && FreshKeys(t, xs, key)
    ensures forall k :: k in t.rows ==> k in InsertAll(t, xs, key).rows && InsertAll(t, xs, key).rows[k] == t.rows[k]
    ensures forall j :: 0 <= j < |xs| ==> key(xs[j]) in InsertAll(t, xs, key).rows && InsertAll(t, xs, key).rows[key(xs[j])] == xs[j]
  {
    forall k | k in t.rows ensures k in InsertAll(t, xs, key).rows && InsertAll(t, xs, key).rows[k] == t.rows[k] {
      InsertAllKeeps(t, xs, key, k);
    }
    forall j | 0 <= j < |xs| ensures key(xs[j]) in InsertAll(t, xs, key).rows && InsertAll(t, xs, key).rows[key(xs[j])] == xs[j] {
      InsertAllHas(t, xs, key, j);
    }
  }

  // -------------------------------------------------- per-table invariants

  predicate CardKeys(t: Table<Card>) {
    forall k :: k in t.rows ==> t.rows[k].cardUuid == k && t.rows[k].tenantId == DefaultTenant
  }

  predicate OwnershipKeys(t: Table<Ownership>) {
    forall k :: k in t.rows ==> t.rows[k].ownershipUuid == k && t.rows[k].tenantId == DefaultTenant
  }

  predicate MediaKeys(t: Table<Media>) {
    forall k :: k in t.rows ==> t.rows[k].mediaUuid == k && t.rows[k].tenantId == DefaultTenant
  }

  /** ownership.card_uuid names a card row (soft-deleted or not). */
  predicate OwnershipRefs(owners: Table<Ownership>, cards: Table<Card>) {
    forall k :: k in owners.rows ==> owners.rows[k].cardUuid in cards.rows
  }

  /** media.card_uuid and media.ownership_uuid, when given, name rows. */
  predicate MediaRefs(media: Table<Media>, cards: Table<Card>, owners: Table<Ownership>) {
    forall k :: k in media.rows ==>
      && (Truthy(media.rows[k].cardUuid) ==> media.rows[k].cardUuid.value in cards.rows)
      && (Truthy(media.rows[k].ownershipUuid) ==> media.rows[k].ownershipUuid.value in owners.rows)
  }

  /** The whole-database invariant: consistent tables, every row stored under
      its own primary key in tenant "local", the (tenant, canonical key)
      uniqueness constraint, and references that resolve. Nothing ever removes
      a row: deletion only sets deleted_at. */
  predicate DbValid(cards: Table<Card>, owners: Table<Ownership>, media: Table<Media>) {
    && cards.Valid() && owners.Valid() && media.Valid()
    && CardKeys(cards) && OwnershipKeys(owners) && MediaKeys(media)
    && UniqueCanonical(cards.rows)
    && OwnershipRefs(owners, cards)
    && MediaRefs(media, cards, owners)
  }

  /** Rows only ever gain keys. */
  predicate Grows<T>(before: Table<T>, after: Table<T>) {
    before.rows.Keys <= after.rows.Keys
  }

  class Database {
    var cards: Table<Card>
    var owners: Table<Ownership>
    var media: Table<Media>

    predicate Valid()
      reads this
    {
      DbValid(cards, owners, media)
    }

    /** A fresh, empty database. */
    constructor ()
      ensures Valid()
      ensures cards.Values() == [] && owners.Values() == [] && media.Values() == []
    {
      cards := EmptyTable();
      owners := EmptyTable();
      media := EmptyTable();
    }
  }
}
