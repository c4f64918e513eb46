/** The catalog import script's pipeline: release files are read into card
    rows (de-duplicated within each release), rows already seen in the run
    are skipped, and the rest are upserted by canonical key, with a commit
    every commit_every rows unless the run is a dry run. Release JSON is a
    datatype; the directory walk is a given list of directories and file names. */
module CatalogImport {
  import opened Common
  import opened Models
  import opened Query
  import opened Store
  import opened CatalogNorm

  // ------------------------------------------------------- release files

  /** A card of a release file; a JSON number in these fields is taken as its
      str() text. */
  datatype JsonCard = JsonCard(uniqueId: Option<string>, number: Option<string>, name: Option<string>)

  /** A set of a release; numberedTo is present only when the JSON holds an integer. */
  datatype JsonSet = JsonSet(name: Option<string>, numberedTo: Option<int>, cards: seq<JsonCard>)

  datatype Release = Release(name: Option<string>, sets: seq<JsonSet>)

  /** The columns of a yielded row that upsert_card stores, plus the external
      id it would store if the card table had that column. */
  datatype Row = Row(
    sport: string, year: Option<int>, brand: string, setName: string, subset: Option<string>,
    cardNo: Option<string>, player: Option<string>, printRun: Option<int>, externalId: Option<string>)

  /** rel.get("name") or "". */
  function ReleaseName(rel: Release): string {
    rel.name.GetOr("")
  }

  /** The row built for one card of one set. */
  function CardRow(path: string, sport: string, rel: Release, st: JsonSet, c: JsonCard): (d: Row)
    ensures d.sport == sport && d.setName == ReleaseName(rel) && d.printRun == st.numberedTo
    ensures d.subset == EnsureStr(st.name) && d.cardNo == EnsureStr(c.number) && d.player == EnsureStr(c.name)
    ensures d.brand == ParseBrand(Some(ReleaseName(rel))) && d.year == FindYearFromPath(path)
  {
    Row(sport, FindYearFromPath(path), ParseBrand(Some(ReleaseName(rel))), ReleaseName(rel),
        EnsureStr(st.name), EnsureStr(c.number), EnsureStr(c.name), st.numberedTo, EnsureStr(c.uniqueId))
  }

  /** The canonical key of a row. */
  function Key(d: Row): string {
    BuildCanonical(d.year, Some(d.brand), Some(d.setName), d.cardNo, d.player)
  }

  function SetRows(path: string, sport: string, rel: Release, st: JsonSet): (rs: seq<Row>)
    ensures |rs| == |st.cards|
    ensures forall i :: 0 <= i < |rs| ==> rs[i] == CardRow(path, sport, rel, st, st.cards[i])
  {
    seq(|st.cards|, i requires 0 <= i < |st.cards| => CardRow(path, sport, rel, st, st.cards[i]))
  }

  /** Every card of every set, in file order, before de-duplication. */
  function Candidates(path: string, sport: string, rel: Release, sets: seq<JsonSet>): seq<Row> {
    if sets == [] then []
    else Candidates(path, sport, rel, sets[..|sets| - 1]) + SetRows(path, sport, rel, sets[|sets| - 1])
  }

  // ------------------------------------------------------- import_release

  /** import_release: the rows of one release file, each canonical key once. */
  method ImportRelease(path: string, sport: string, rel: Release) returns (rows: seq<Row>)
    ensures rows == Dedup(Candidates(path, sport, rel, rel.sets), Key)
  {
    var seen: set<string> := {};
    rows := [];
    for si := 0 to |rel.sets|
      invariant rows == Dedup(Candidates(path, sport, rel, rel.sets[..si]), Key)
      invariant seen == SeenKeys(rows, Key)
    {
      var st := rel.sets[si];
      ghost var before := Candidates(path, sport, rel, rel.sets[..si]);
      ghost var setRows := SetRows(path, sport, rel, st);
      assert before + setRows[..0] == before;
      for ci := 0 to |st.cards|
        invariant rows == Dedup(before + setRows[..ci], Key)
        invariant seen == SeenKeys(rows, Key)
      {
        var d := CardRow(path, sport, rel, st, st.cards[ci]);
        var key := Key(d);
        ghost var pre := before + setRows[..ci];
        assert d == setRows[ci];
        SnocSlice(before, setRows, ci);
        assert before + setRows[..ci + 1] == pre + [d];
        DedupSnoc(pre, d, Key);
        if key !in seen {
          SeenKeysSnoc(rows, d, Key);
          seen := seen + {key};
          rows := rows + [d];
          assert rows == Dedup(pre + [d], Key);
        } else {
          assert rows == Dedup(pre + [d], Key);
        }
      }
      assert rel.sets[..si + 1][..si] == rel.sets[..si];
      assert setRows[..|st.cards|] == setRows;
    }
    assert rel.sets[..|rel.sets|] == rel.sets;
  }

  /** The rows of one release have pairwise distinct keys; each is the first
      card of its key in set and card order, the rows keep that order, and
      every key of the file is represented. */
  lemma ImportReleaseSpec(path: string, sport: string, rel: Release)
    ensures var cs := Candidates(path, sport, rel, rel.sets);
      var rows := Dedup(cs, Key);
      && SeenKeys(rows, Key) == SeenKeys(cs, Key)
      && (forall i :: 0 <= i < |rows| ==> rows[i] == cs[FirstPos(cs, Key, Key(rows[i]))])
      && (forall i, j :: 0 <= i < j < |rows| ==> FirstPos(cs, Key, Key(rows[i])) < FirstPos(cs, Key, Key(rows[j])))
      && (forall i, j :: 0 <= i < j < |rows| ==> Key(rows[i]) != Key(rows[j]))
  {
    var cs := Candidates(path, sport, rel, rel.sets);
    DedupSpec(cs, Key);
    DedupDistinctKeys(cs, Key);
  }

  // ---------------------------------------------------------- upsert_card

  /** The filter_by of upsert_card: tenant "local" and the canonical key. */
  predicate HasKey(c: Card, key: string) {
    c.tenantId == DefaultTenant && c.canonicalKey == Some(key)
  }

  /** query(...).first(): the first row in scan order with the key. */
  function FindByKey(t: Table<Card>, key: string, i: nat): (r: Option<string>)
    requires t.Valid() && i <= |t.order|
    ensures r.Some? ==> r.value in t.rows && HasKey(t.rows[r.value], key)
    ensures r.None? ==> forall j :: i <= j < |t.order| ==> !HasKey(t.rows[t.order[j]], key)
    decreases |t.order| - i
  {
    if i == |t.order| then None
    else if HasKey(t.rows[t.order[i]], key) then Some(t.order[i])
    else FindByKey(t, key, i + 1)
  }

  /** The row upsert_card works on: the cached one, else the stored one. */
  function Lookup(t: Table<Card>, cache: map<string, string>, key: string): Option<string>
    requires t.Valid()
  {
    if key in cache then Some(cache[key]) else FindByKey(t, key, 0)
  }

  /** Every cache entry names a stored row with that key. */
  predicate CacheOk(t: Table<Card>, cache: map<string, string>) {
    forall k :: k in cache ==> cache[k] in t.rows && HasKey(t.rows[cache[k]], k)
  }

  /** A row is found exactly when the cache or the table holds one with the key. */
  lemma LookupSpec(t: Table<Card>, cache: map<string, string>, key: string)
    requires t.Valid() && CacheOk(t, cache)
    ensures Lookup(t, cache, key).None? <==> key !in cache && forall id :: id in t.rows ==> !HasKey(t.rows[id], key)
    ensures Lookup(t, cache, key).Some? ==>
      Lookup(t, cache, key).value in t.rows && HasKey(t.rows[Lookup(t, cache, key).value], key)
  {
    if Lookup(t, cache, key).None? {
      forall id | id in t.rows ensures !HasKey(t.rows[id], key) {
        var j :| 0 <= j < |t.order| && t.order[j] == id;
      }
    }
  }

  /** print_run keeps the release's integer; the text column holds its digits. */
  function PrintRunText(n: Option<int>): Option<string> {
    if n.Some? then Some(IntToString(n.value)) else None
  }

  /** The eight assignments of upsert_card and the new updated_at. */
  function Filled(c: Card, d: Row, now: Timestamp): Card {
    c.(sport := Some(d.sport), year := d.year, brand := Some(d.brand), setName := Some(d.setName),
       subset := d.subset, cardNo := d.cardNo, player := d.player, printRun := PrintRunText(d.printRun),
       updatedAt := now)
  }

  /** The card holds the row's values in the eight columns upsert_card sets. */
  predicate Holds(c: Card, d: Row) {
    && c.sport == Some(d.sport) && c.year == d.year && c.brand == Some(d.brand)
    && c.setName == Some(d.setName) && c.subset == d.subset && c.cardNo == d.cardNo
    && c.player == d.player && c.printRun == PrintRunText(d.printRun)
  }

  /** Filling sets those eight columns and the timestamp and nothing that
      identifies the row. */
  lemma FilledSpec(c: Card, d: Row, now: Timestamp)
    ensures Holds(Filled(c, d, now), d) && Filled(c, d, now).updatedAt == now
    ensures Filled(c, d, now).cardUuid == c.cardUuid && Filled(c, d, now).tenantId == c.tenantId
    ensures Filled(c, d, now).canonicalKey == c.canonicalKey && Filled(c, d, now).createdAt == c.createdAt
    ensures Filled(c, d, now).deletedAt == c.deletedAt
  {
  }

  /** The card created for a key not seen before. */
  function NewRow(id: string, key: string, now: Timestamp): Card {
    NewCard(id, now).(canonicalKey := Some(key))
  }

  /** The card table and cache after upsert_card has worked on the row
      for key (found, or new under id). */
  function UpsertedTable(t: Table<Card>, cache: map<string, string>, key: string, d: Row, id: string, now: Timestamp): Table<Card>
    requires t.Valid() && CacheOk(t, cache) && id !in t.rows
  {
    LookupSpec(t, cache, key);
    var found := Lookup(t, cache, key);
    if found.None? then t.Insert(id, Filled(NewRow(id, key, now), d, now))
    else t.Put(found.value, Filled(t.rows[found.value], d, now))
  }

  /** Inserting the new card for a key no row holds keeps the table well
      formed and lets the cache point at it. */
  lemma InsertNewKeeps(t: Table<Card>, cache: map<string, string>, key: string, d: Row, id: string, now: Timestamp)
    requires t.Valid() && CardKeys(t) && UniqueCanonical(t.rows) && CacheOk(t, cache)
    requires id !in t.rows
    requires forall x :: x in t.rows ==> !HasKey(t.rows[x], key)
    ensures var t' := t.Insert(id, Filled(NewRow(id, key, now), d, now));
      && CardKeys(t') && UniqueCanonical(t'.rows) && CacheOk(t', cache[key := id]) && Holds(t'.rows[id], d)
  {
    var row := Filled(NewRow(id, key, now), d, now);
    FilledSpec(NewRow(id, key, now), d, now);
    PutKeepsUnique(t.rows, id, row);
  }

  /** Overwriting the found row keeps its key, so the table stays well formed. */
  lemma PutFoundKeeps(t: Table<Card>, cache: map<string, string>, key: string, d: Row, target: string, now: Timestamp)
    requires t.Valid() && CardKeys(t) && UniqueCanonical(t.rows) && CacheOk(t, cache)
    requires target in t.rows && HasKey(t.rows[target], key)
    ensures var t' := t.Put(target, Filled(t.rows[target], d, now));
      && CardKeys(t') && UniqueCanonical(t'.rows) && CacheOk(t', cache[key := target]) && Holds(t'.rows[target], d)
  {
    var row := Filled(t.rows[target], d, now);
    FilledSpec(t.rows[target], d, now);
    assert !KeyTaken(t.rows, row.tenantId, row.canonicalKey, target);
    PutKeepsUnique(t.rows, target, row);
  }

  /** upsert_card keeps the table well formed, keeps the cache pointing into
      it, and leaves the row for the key holding the row's values. */
  lemma UpsertKeeps(t: Table<Card>, cache: map<string, string>, key: string, d: Row, id: string, now: Timestamp)
    requires t.Valid() && CardKeys(t) && UniqueCanonical(t.rows) && CacheOk(t, cache)
    requires id !in t.rows
    ensures var found := Lookup(t, cache, key);
      var target := if found.Some? then found.value else id;
      var t' := UpsertedTable(t, cache, key, d, id, now);
      && t'.Valid() && CardKeys(t') && UniqueCanonical(t'.rows) && CacheOk(t', cache[key := target])
      && target in t'.rows && Holds(t'.rows[target], d)
      && (forall k :: k in t'.rows ==> k in t.rows || k == id)
  {
    LookupSpec(t, cache, key);
    var found := Lookup(t, cache, key);
    if found.None? {
      InsertNewKeeps(t, cache, key, d, id, now);
    } else {
      PutFoundKeeps(t, cache, key, d, found.value, now);
    }
  }

  datatype UpsertStatus = Created | Updated

  /** The cache after upsert_card: the key maps to the row worked on. */
  function UpsertedCache(t: Table<Card>, cache: map<string, string>, key: string, id: string): map<string, string>
    requires t.Valid()
  {
    var found := Lookup(t, cache, key);
    cache[key := if found.Some? then found.value else id]
  }

  function UpsertedStatus(t: Table<Card>, cache: map<string, string>, key: string): UpsertStatus
    requires t.Valid()
  {
    if Lookup(t, cache, key).None? then Created else Updated
  }

  lemma UpsertConsistent(t: Table<Card>, cache: map<string, string>, d: Row, id: string, now: Timestamp)
    requires t.Valid() && CardKeys(t) && UniqueCanonical(t.rows) && CacheOk(t, cache)
    requires id !in t.rows
    ensures var t' := UpsertedTable(t, cache, Key(d), d, id, now);
      && t'.Valid() && CardKeys(t') && UniqueCanonical(t'.rows) && CacheOk(t', UpsertedCache(t, cache, Key(d), id))
      && (forall k :: k in t'.rows ==> k in t.rows || k == id)
  {
    UpsertKeeps(t, cache, Key(d), d, id, now);
  }

  /** upsert_card reports "created" exactly when neither the cache nor the
      table had a row with the key; afterwards the cache maps the key to a
      stored row holding the row's values, and no key but the new id appears. */
  lemma UpsertSpec(t: Table<Card>, cache: map<string, string>, d: Row, id: string, now: Timestamp)
    requires t.Valid() && CardKeys(t) && UniqueCanonical(t.rows) && CacheOk(t, cache)
    requires id !in t.rows
    ensures UpsertedStatus(t, cache, Key(d)) == Created <==>
      Key(d) !in cache && forall x :: x in t.rows ==> !HasKey(t.rows[x], Key(d))
    ensures var t' := UpsertedTable(t, cache, Key(d), d, id, now);
      var c' := UpsertedCache(t, cache, Key(d), id);
      && t'.Valid() && CardKeys(t') && UniqueCanonical(t'.rows) && CacheOk(t', c')
      && Key(d) in c' && c'[Key(d)] in t'.rows && Holds(t'.rows[c'[Key(d)]], d)
      && (forall k :: k in t'.rows ==> k in t.rows || k == id)
  {
    LookupSpec(t, cache, Key(d));
    UpsertKeeps(t, cache, Key(d), d, id, now);
  }


  /** A session of the import script: the card table as the session sees it
      (flushed rows included), what has been committed, the canonical-key
      cache, the keys seen in this run and the counters of main. */
  class ImportRun {
    var cards: Table<Card>
    var saved: Table<Card>
    var cache: map<string, string>
    var globalSeen: set<string>
    var created: nat
    var updated: nat
    var batch: nat
    const commitEvery: int
    const dryRun: bool
    const initial: Table<Card>
    /** Every row handed to main's inner loop so far, skipped ones included. */
    ghost var fed: seq<Row>

    /** The table is well formed and the cache points into it. */
    predicate Consistent()
      reads this`cards, this`cache
    {
      cards.Valid() && CardKeys(cards) && UniqueCanonical(cards.rows) && CacheOk(cards, cache)
    }

    ghost predicate Valid()
      reads this
    {
      Consistent() && Counted()
    }

    /** The run's bookkeeping matches the rows fed so far. */
    ghost predicate Counted()
      reads this`globalSeen, this`fed, this`created, this`updated, this`batch, this`saved
    {
      && globalSeen == SeenKeys(fed, Key)
      && created + updated == |Dedup(fed, Key)|
      && (!dryRun && commitEvery >= 1 ==> batch < commitEvery)
      && (dryRun ==> saved == initial)
    }

    constructor (t: Table<Card>, commitEvery: int, dryRun: bool)
      requires t.Valid() && CardKeys(t) && UniqueCanonical(t.rows)
      ensures Valid() && fed == []
      ensures cards == t && saved == t && initial == t && cache == map[] && globalSeen == {}
      ensures created == 0 && updated == 0 && batch == 0
      ensures this.commitEvery == commitEvery && this.dryRun == dryRun
    {
      cards, saved, initial := t, t, t;
      cache, globalSeen := map[], {};
      created, updated, batch := 0, 0, 0;
      this.commitEvery, this.dryRun := commitEvery, dryRun;
      fed := [];
    }

    /** upsert_card: creates the row for a new key, else overwrites the
        found row's columns; the cache then maps the key to that row. */
    method Upsert(d: Row, uuid: string, now: Timestamp) returns (st: UpsertStatus)
      requires Consistent()
      requires "c_" + uuid !in cards.rows
      modifies this`cards, this`cache
      ensures Consistent()
      ensures cards == UpsertedTable(old(cards), old(cache), Key(d), d, "c_" + uuid, now)
      ensures cache == UpsertedCache(old(cards), old(cache), Key(d), "c_" + uuid)
      ensures st == UpsertedStatus(old(cards), old(cache), Key(d))
      ensures forall k :: k in cards.rows ==> k in old(cards.rows) || k == "c_" + uuid
    {
      var id := "c_" + uuid;
      UpsertConsistent(cards, cache, d, id, now);
      st := UpsertedStatus(cards, cache, Key(d));
      cards, cache := UpsertedTable(cards, cache, Key(d), d, id, now), UpsertedCache(cards, cache, Key(d), id);
    }

    /** The body of main's inner loop for one row: a key already seen in this
        run is skipped; otherwise the row goes to Fresh. */
    method Process(d: Row, uuid: string, now: Timestamp)
      requires Valid() && "c_" + uuid !in cards.rows
      modifies this
      ensures Valid()
      ensures fed == old(fed) + [d]
      ensures forall k :: k in cards.rows ==> k in old(cards.rows) || k == "c_" + uuid
      ensures Key(d) in old(globalSeen) ==>
        && cards == old(cards) && cache == old(cache) && saved == old(saved) && globalSeen == old(globalSeen)
        && created == old(created) && updated == old(updated) && batch == old(batch)
      ensures Key(d) !in old(globalSeen) ==> FreshDone(old(cards), old(cache), old(saved), old(globalSeen),
        old(created) + old(updated), old(batch), d, uuid, now)
    {
      DedupStep(fed, d, Key);
      if Key(d) in globalSeen {
        fed := fed + [d];
      } else {
        Fresh(d, uuid, now);
      }
    }

    /** The state after Fresh, against the state before it. */
    ghost predicate FreshDone(cards0: Table<Card>, cache0: map<string, string>, saved0: Table<Card>,
                              seen0: set<string>, count0: nat, batch0: nat, d: Row, uuid: string, now: Timestamp)
      reads this
      requires cards0.Valid() && CacheOk(cards0, cache0) && "c_" + uuid !in cards0.rows
    {
      && globalSeen == seen0 + {Key(d)}
      && cards == UpsertedTable(cards0, cache0, Key(d), d, "c_" + uuid, now)
      && cache == UpsertedCache(cards0, cache0, Key(d), "c_" + uuid)
      && created + updated == count0 + 1
      && (if !dryRun && batch0 + 1 >= commitEvery then batch == 0 && saved == cards
          else batch == batch0 + 1 && saved == saved0)
    }

    /** A row whose key is new to the run: it is upserted, counted as created
        or updated, and the batch is committed once it reaches commit_every. */
    method Fresh(d: Row, uuid: string, now: Timestamp)
      requires Valid() && "c_" + uuid !in cards.rows && Key(d) !in globalSeen
      modifies this
      ensures Valid()
      ensures fed == old(fed) + [d]
      ensures forall k :: k in cards.rows ==> k in old(cards.rows) || k == "c_" + uuid
      ensures FreshDone(old(cards), old(cache), old(saved), old(globalSeen),
        old(created) + old(updated), old(batch), d, uuid, now)
    {
      var st := Upsert(d, uuid, now);
      Count(d, st);
    }

    /** The bookkeeping of main for a row just upserted. */
    method Count(d: Row, st: UpsertStatus)
      requires Counted() && Key(d) !in globalSeen
      modifies this`globalSeen, this`created, this`updated, this`fed, this`batch, this`saved
      ensures Counted()
      ensures fed == old(fed) + [d] && globalSeen == old(globalSeen) + {Key(d)}
      ensures created + updated == old(created) + old(updated) + 1
      ensures st == Created ==> created == old(created) + 1 && updated == old(updated)
      ensures st == Updated ==> updated == old(updated) + 1 && created == old(created)
      ensures if !dryRun && old(batch) + 1 >= commitEvery then batch == 0 && saved == cards
        else batch == old(batch) + 1 && saved == old(saved)
    {
      DedupStep(fed, d, Key);
      globalSeen := globalSeen + {Key(d)};
      if st == Created {
        created := created + 1;
      } else {
        updated := updated + 1;
      }
      fed := fed + [d];
      batch := batch + 1;
      if !dryRun && batch >= commitEvery {
        saved := cards;
        batch := 0;
      }
    }

    /** main's inner loop over the rows of one file; the row at i is offered
        uuids[pos + i] for the card it may create. */
    method Feed(rows: seq<Row>, uuids: seq<string>, pos: nat, now: Timestamp)
      requires Valid() && Distinct(uuids) && pos + |rows| <= |uuids|
      requires forall j :: pos <= j < |uuids| ==> "c_" + uuids[j] !in cards.rows
      modifies this
      ensures Valid() && fed == old(fed) + rows
      ensures forall j :: pos + |rows| <= j < |uuids| ==> "c_" + uuids[j] !in cards.rows
    {
      ghost var before := fed;
      for ri := 0 to |rows|
        invariant Valid() && fed == before + rows[..ri]
        invariant forall j :: pos + ri <= j < |uuids| ==> "c_" + uuids[j] !in cards.rows
      {
        Process(rows[ri], uuids[pos + ri], now);
        forall j | pos + ri < j < |uuids| ensures "c_" + uuids[j] !in cards.rows {
          IdsDiffer(uuids[j], uuids[pos + ri]);
        }
        SnocSlice(before, rows, ri);
      }
      assert rows[..|rows|] == rows;
    }

    /** The commit after the last file; a dry run commits nothing. */
    method Finish()
      requires Valid()
      modifies this`saved
      ensures Valid()
      ensures dryRun ==> saved == old(saved)
      ensures !dryRun ==> saved == cards
    {
      if !dryRun {
        saved := cards;
      }
    }
  }

  // ----------------------------------------------------------------- main

  datatype ReleaseFile = ReleaseFile(path: string, sport: string, rel: Release)

  /** What import_release yields for one file. */
  function ReleaseRows(f: ReleaseFile): seq<Row> {
    Dedup(Candidates(f.path, f.sport, f.rel, f.rel.sets), Key)
  }

  /** The rows of all files in turn, before the cross-file check. */
  function AllRows(files: seq<ReleaseFile>): seq<Row> {
    if files == [] then [] else AllRows(files[..|files| - 1]) + ReleaseRows(files[|files| - 1])
  }

  lemma {:induction false} AllRowsGrow(files: seq<ReleaseFile>, i: nat)
    requires i <= |files|
    ensures |AllRows(files[..i])| <= |AllRows(files)|
    decreases |files| - i
  {
    if i < |files| {
      AllRowsGrow(files, i + 1);
      var p := files[..i + 1];
      assert p[..|p| - 1] == files[..i];
      assert AllRows(p) == AllRows(files[..i]) + ReleaseRows(files[i]);
    } else {
      assert files[..i] == files;
    }
  }

  lemma AllRowsSnoc(files: seq<ReleaseFile>, i: nat)
    requires i < |files|
    ensures AllRows(files[..i + 1]) == AllRows(files[..i]) + ReleaseRows(files[i])
  {
    assert files[..i + 1][..i] == files[..i];
  }

  lemma IdsDiffer(a: string, b: string)
    requires a != b
    ensures "c_" + a != "c_" + b
  {
    assert ("c_" + a)[2..] == a && ("c_" + b)[2..] == b;
  }

  /** main after the file list is known: every row of every file goes
      through the per-row step, then the final commit. Each created card
      takes the next unused uuid. */
  method RunImport(t: Table<Card>, files: seq<ReleaseFile>, uuids: seq<string>,
                   commitEvery: int, dryRun: bool, now: Timestamp) returns (run: ImportRun)
    requires t.Valid() && CardKeys(t) && UniqueCanonical(t.rows)
    requires Distinct(uuids) && |AllRows(files)| <= |uuids|
    requires forall j :: 0 <= j < |uuids| ==> "c_" + uuids[j] !in t.rows
    ensures run.Valid() && run.fed == AllRows(files)
    ensures run.created + run.updated == |Dedup(AllRows(files), Key)|
    ensures run.globalSeen == SeenKeys(AllRows(files), Key)
    ensures run.dryRun == dryRun && run.commitEvery == commitEvery
    ensures dryRun ==> run.saved == t
    ensures !dryRun ==> run.saved == run.cards
  {
    run := new ImportRun(t, commitEvery, dryRun);
    var pos := 0;
    for fi := 0 to |files|
      invariant run.Valid() && run.fed == AllRows(files[..fi]) && pos == |run.fed|
      invariant run.initial == t && run.dryRun == dryRun && run.commitEvery == commitEvery
      invariant forall j :: |run.fed| <= j < |uuids| ==> "c_" + uuids[j] !in run.cards.rows
    {
      var f := files[fi];
      var rows := ImportRelease(f.path, f.sport, f.rel);
      AllRowsSnoc(files, fi);
      AllRowsGrow(files, fi + 1);
      run.Feed(rows, uuids, pos, now);
      pos := pos + |rows|;
    }
    assert files[..|files|] == files;
    run.Finish();
  }
}
