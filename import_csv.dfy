/** POST /v1/import/cards.csv: one card per data row of an uploaded CSV file.
    Rows are maps from header name to cell text (a short row simply lacks
    the trailing names); a row whose numeric cell cannot be parsed counts as
    an error and adds nothing. All accepted rows are committed together. */
module ImportCsv {
  import opened Common
  import opened Models
  import opened Store

  type CsvRow = map<string, string>

  /** row.get(name). */
  function Field(row: CsvRow, name: string): Option<string> {
    if name in row then Some(row[name]) else None
  }

  /** `v or None`: an empty cell is None, anything else verbatim. */
  function OrNone(v: Option<string>): (r: Option<string>)
    ensures r.None? <==> !Truthy(v)
    ensures r.Some? ==> r == v
  {
    if Truthy(v) then v else None
  }

  /** The outcome of `int(v) if (v or "").strip().isdigit() else None`. */
  datatype Coercion = Number(n: Option<nat>) | ValueError

  /** isdigit admits the superscript digits, int() does not: such a cell
      raises. int() itself ignores the surrounding whitespace. */
  function DigitCell(v: Option<string>): (r: Coercion)
    ensures !IsDigitStr(Strip(v.GetOr(""))) ==> r == Number(None)
    ensures r == ValueError <==> IsDigitStr(Strip(v.GetOr(""))) && !AllDecimal(Strip(v.GetOr("")))
    ensures r.Number? && r.n.Some? ==> AllDecimal(Strip(v.GetOr(""))) && r.n.value == DigitsValue(Strip(v.GetOr("")))
  {
    var s := Strip(v.GetOr(""));
    if !IsDigitStr(s) then Number(None)
    else if AllDecimal(s) then Number(Some(DigitsValue(s)))
    else ValueError
  }

  /** The CSV header name of each text column. */
  function ColumnName(f: TextField): string {
    match f
    case Brand => "brand"
    case SetName => "set_name"
    case Subset => "subset"
    case CardNo => "card_no"
    case Player => "player"
    case Team => "team"
    case Sport => "sport"
    case Parallel => "parallel"
    case Variant => "variant"
    case PrintRun => "print_run"
    case Notes => "notes"
  }

  /** A text cell as stored: `row.get(name) or None`. */
  function CellText(row: CsvRow, f: TextField): Option<string> {
    OrNone(Field(row, ColumnName(f)))
  }

  /** The card built from a row whose numeric cells parsed. */
  function BuildRow(row: CsvRow, id: string, now: Timestamp, year: Option<nat>, printRun: Option<nat>): (c: Card)
    ensures c.cardUuid == id && c.Live() && c.canonicalKey.None?
    ensures c.tenantId == DefaultTenant && c.createdAt == now && c.updatedAt == now
    ensures c.year == if year.Some? then Some(year.value as int) else None
    ensures c.printRun == if printRun.Some? then Some(NatToString(printRun.value)) else None
  {
    NewCard(id, now).(
      year := if year.Some? then Some(year.value as int) else None,
      brand := CellText(row, Brand), setName := CellText(row, SetName),
      subset := CellText(row, Subset), cardNo := CellText(row, CardNo),
      player := CellText(row, Player), team := CellText(row, Team),
      sport := CellText(row, Sport), parallel := CellText(row, Parallel),
      variant := CellText(row, Variant),
      printRun := if printRun.Some? then Some(NatToString(printRun.value)) else None,
      notes := CellText(row, Notes))
  }

  /** Every text column but print_run holds its cell. */
  lemma BuildRowText(row: CsvRow, id: string, now: Timestamp, year: Option<nat>, printRun: Option<nat>, f: TextField)
    requires f != PrintRun
    ensures Text(BuildRow(row, id, now, year, printRun), f) == CellText(row, f)
  {
    match f
    case Brand =>
    case SetName =>
    case Subset =>
    case CardNo =>
    case Player =>
    case Team =>
    case Sport =>
    case Parallel =>
    case Variant =>
    case Notes =>
  }

  /** The card a row yields under the given id, or None when building it
      raised. print_run is a text column: the parsed number is stored as its
      decimal text. */
  function RowCard(row: CsvRow, id: string, now: Timestamp): (r: Option<Card>)
    ensures r.Some? ==> r.value.cardUuid == id && r.value.Live() && r.value.canonicalKey.None?
    ensures r.Some? ==> r.value.tenantId == DefaultTenant && r.value.createdAt == now && r.value.updatedAt == now
  {
    var y := DigitCell(Field(row, "year"));
    var pr := DigitCell(Field(row, "print_run"));
    if y == ValueError || pr == ValueError then None else Some(BuildRow(row, id, now, y.n, pr.n))
  }

  /** Text cells are stored exactly as given, an empty or missing cell as
      None; year and print_run hold the cell's number when the stripped cell
      is all digits, else None. */
  lemma RowCardColumns(row: CsvRow, id: string, now: Timestamp)
    requires RowCard(row, id, now).Some?
    ensures var c := RowCard(row, id, now).value;
      && c.cardUuid == id && c.Live() && c.canonicalKey.None? && c.createdAt == now && c.updatedAt == now
      && (forall f :: f != PrintRun ==>
            (Text(c, f).None? <==> !Truthy(Field(row, ColumnName(f))))
            && (Text(c, f).Some? ==> Text(c, f).value == row[ColumnName(f)]))
      && (c.year.Some? <==> IsDigitStr(Strip(Field(row, "year").GetOr(""))))
      && (c.year.Some? ==> c.year.value == DigitsValue(Strip(row["year"])))
      && (c.printRun.Some? <==> IsDigitStr(Strip(Field(row, "print_run").GetOr(""))))
      && (c.printRun.Some? ==> DigitsValue(c.printRun.value) == DigitsValue(Strip(row["print_run"])))
  {
    var y := DigitCell(Field(row, "year"));
    var pr := DigitCell(Field(row, "print_run"));
    var c := RowCard(row, id, now).value;
    assert c == BuildRow(row, id, now, y.n, pr.n);
    forall f | f != PrintRun
      ensures (Text(c, f).None? <==> !Truthy(Field(row, ColumnName(f))))
      ensures (Text(c, f).Some? ==> Text(c, f).value == row[ColumnName(f)])
    {
      BuildRowText(row, id, now, y.n, pr.n, f);
    }
    if c.printRun.Some? {
      DigitsValueOfNatToString(DigitsValue(Strip(row["print_run"])));
    }
  }

  /** The cards the accepted rows build, in row order; row i gets id
      "c_" + uuids[i]. */
  function CreatedCards(rows: seq<CsvRow>, uuids: seq<string>, now: Timestamp): (cs: seq<Card>)
    requires |uuids| == |rows|
    ensures |cs| <= |rows|
  {
    if rows == [] then []
    else
      var n := |rows| - 1;
      var prev := CreatedCards(rows[..n], uuids[..n], now);
      match RowCard(rows[n], "c_" + uuids[n], now)
      case None => prev
      case Some(c) => prev + [c]
  }

  /** What every imported card looks like: a "c_" id, tenant "local", live,
      created_at equal to updated_at, and no canonical key. */
  predicate Imported(c: Card, now: Timestamp) {
    && StartsWith(c.cardUuid, "c_") && c.tenantId == DefaultTenant && c.Live()
    && c.createdAt == now && c.updatedAt == now && c.canonicalKey.None?
  }

  lemma {:induction false} CreatedCardsShape(rows: seq<CsvRow>, uuids: seq<string>, now: Timestamp)
    requires |uuids| == |rows|
    ensures forall j :: 0 <= j < |CreatedCards(rows, uuids, now)| ==> Imported(CreatedCards(rows, uuids, now)[j], now)
  {
    if rows != [] {
      var n := |rows| - 1;
      CreatedCardsShape(rows[..n], uuids[..n], now);
      var r := RowCard(rows[n], "c_" + uuids[n], now);
      if r.Some? {
        assert ("c_" + uuids[n])[..2] == "c_";
        assert Imported(r.value, now);
      }
    }
  }

  function CardId(c: Card): string {
    c.cardUuid
  }

  /** Committing cards that each sit under their own new id, in tenant
      "local", without a canonical key, keeps the database valid. */
  lemma InsertAllKeepsValid(cards: Table<Card>, owners: Table<Ownership>, media: Table<Media>, cs: seq<Card>)
    requires DbValid(cards, owners, media) && FreshKeys(cards, cs, CardId)
    requires forall j :: 0 <= j < |cs| ==> cs[j].canonicalKey.None? && cs[j].tenantId == DefaultTenant
    ensures DbValid(InsertAll(cards, cs, CardId), owners, media)
  {
    var r := InsertAll(cards, cs, CardId);
    assert CardKeys(r) by {
      forall k | k in r.rows ensures r.rows[k].cardUuid == k && r.rows[k].tenantId == DefaultTenant {
        if k in cards.rows {
          InsertAllKeeps(cards, cs, CardId, k);
        } else {
          var j := KeysFrom(cs, CardId, k);
          InsertAllHas(cards, cs, CardId, j);
        }
      }
    }
    assert UniqueCanonical(r.rows) by {
      forall a, b | a in r.rows && b in r.rows && a != b && r.rows[a].canonicalKey.Some? && r.rows[a].tenantId == r.rows[b].tenantId
        ensures r.rows[a].canonicalKey != r.rows[b].canonicalKey
      {
        if a !in cards.rows {
          var j := KeysFrom(cs, CardId, a);
          InsertAllHas(cards, cs, CardId, j);
          assert false;
        }
        InsertAllKeeps(cards, cs, CardId, a);
        if b in cards.rows {
          InsertAllKeeps(cards, cs, CardId, b);
        } else {
          var j := KeysFrom(cs, CardId, b);
          InsertAllHas(cards, cs, CardId, j);
        }
      }
    }
    forall k | k in cards.rows ensures k in r.rows {
      InsertAllKeeps(cards, cs, CardId, k);
    }
    assert OwnershipRefs(owners, r);
    assert MediaRefs(media, r, owners);
  }

  datatype Counts = Counts(created: nat, errors: nat)

  predicate IsCsvName(filename: Option<string>) {
    Truthy(filename) && EndsWith(Lower(filename.value), ".csv")
  }

  /** db.add of one built card: the session gains the card unless its id is
      already taken or an earlier id clashed. */
  method StageCard(t0: Table<Card>, cs: seq<Card>, t: Table<Card>, clash: bool, c: Card)
    returns (t': Table<Card>, clash': bool)
    requires t0.Valid()
    requires !clash ==> FreshKeys(t0, cs, CardId) && t == InsertAll(t0, cs, CardId)
    requires clash ==> !FreshKeys(t0, cs, CardId)
    ensures clash' <==> !FreshKeys(t0, cs + [c], CardId)
    ensures !clash' ==> t' == InsertAll(t0, cs + [c], CardId)
  {
    FreshSnoc(t0, cs, CardId, c);
    if clash {
      return t, true;
    }
    InsertAllCovers(t0, cs, CardId, CardId(c));
    if CardId(c) in t.rows {
      return t, true;
    }
    InsertAllSnoc(t0, cs, CardId, c);
    t', clash' := t.Insert(CardId(c), c), false;
  }

  /** One pass of the row loop: row i builds its card and adds it to the
      session, or raises. */
  method StageRow(t0: Table<Card>, rows: seq<CsvRow>, uuids: seq<string>, now: Timestamp, i: nat,
                  cs: seq<Card>, t: Table<Card>, clash: bool)
    returns (cs': seq<Card>, t': Table<Card>, clash': bool, built: bool)
    requires t0.Valid() && |uuids| == |rows| && i < |rows|
    requires cs == CreatedCards(rows[..i], uuids[..i], now)
    requires !clash ==> FreshKeys(t0, cs, CardId) && t == InsertAll(t0, cs, CardId)
    requires clash ==> !FreshKeys(t0, cs, CardId)
    ensures cs' == CreatedCards(rows[..i + 1], uuids[..i + 1], now)
    ensures |cs'| == |cs| + (if built then 1 else 0)
    ensures clash' <==> !FreshKeys(t0, cs', CardId)
    ensures !clash' ==> t' == InsertAll(t0, cs', CardId)
  {
    CreatedStep(rows, uuids, now, i);
    var card := RowCard(rows[i], "c_" + uuids[i], now);
    if card.Some? {
      t', clash' := StageCard(t0, cs, t, clash, card.value);
      cs', built := cs + [card.value], true;
    } else {
      cs', t', clash', built := cs, t, clash, false;
    }
  }

  /** The loop over the rows: each row either adds its card to the session
      (created) or raised (errors). The session ends up holding the table
      the commit would write, unless two ids collide (clash). */
  method StageRows(t0: Table<Card>, rows: seq<CsvRow>, uuids: seq<string>, now: Timestamp)
    returns (t: Table<Card>, created: nat, errors: nat, clash: bool)
    requires t0.Valid() && |uuids| == |rows|
    ensures created == |CreatedCards(rows, uuids, now)| && created + errors == |rows|
    ensures clash <==> !FreshKeys(t0, CreatedCards(rows, uuids, now), CardId)
    ensures !clash ==> t == InsertAll(t0, CreatedCards(rows, uuids, now), CardId)
  {
    t := t0;
    created, errors := 0, 0;
    clash := false;
    var cs: seq<Card> := [];  // the cards pending in the session
    var i := 0;
    while i < |rows|
      invariant 0 <= i <= |rows|
      invariant cs == CreatedCards(rows[..i], uuids[..i], now)
      invariant created + errors == i && created == |cs|
      invariant !clash ==> FreshKeys(t0, cs, CardId) && t == InsertAll(t0, cs, CardId)
      invariant clash ==> !FreshKeys(t0, cs, CardId)
    {
      var built;
      cs, t, clash, built := StageRow(t0, rows, uuids, now, i, cs, t, clash);
      if built {
        created := created + 1;
      } else {
        errors := errors + 1;
      }
      i := i + 1;
    }
    assert rows[..|rows|] == rows && uuids[..|uuids|] == uuids;
  }

  /** import_cards. uuids[i] is the uuid4 drawn for row i (drawn before the
      row's cells are read, so for failing rows too). The commit fails when a
      new id is taken, and then nothing is written. */
  method ImportCards(db: Database, filename: Option<string>, rows: seq<CsvRow>, uuids: seq<string>, now: Timestamp)
    returns (r: Result<Counts>)
    requires db.Valid() && |uuids| == |rows|
    modifies db
    ensures db.Valid()
    ensures db.owners == old(db.owners) && db.media == old(db.media)
    ensures !IsCsvName(filename) ==> r == Err(BadRequest("Please upload a .csv file")) && db.cards == old(db.cards)
    ensures IsCsvName(filename) ==>
      var cs := CreatedCards(rows, uuids, now);
      if !FreshKeys(old(db.cards), cs, CardId) then r == Err(IntegrityError) && db.cards == old(db.cards)
      else r == Ok(Counts(|cs|, |rows| - |cs|)) && db.cards == InsertAll(old(db.cards), cs, CardId)
    ensures r.Ok? ==> r.value.created + r.value.errors == |rows|
  {
    if !IsCsvName(filename) {
      return Err(BadRequest("Please upload a .csv file"));
    }
    var t, created, errors, clash := StageRows(db.cards, rows, uuids, now);
    if clash {
      return Err(IntegrityError);
    }
    CreatedCardsShape(rows, uuids, now);
    InsertAllKeepsValid(db.cards, db.owners, db.media, CreatedCards(rows, uuids, now));
    db.cards := t;
    r := Ok(Counts(created, errors));
  }

  /** One more row adds its card, if it has one, at the end. */
  lemma CreatedStep(rows: seq<CsvRow>, uuids: seq<string>, now: Timestamp, i: nat)
    requires |uuids| == |rows| && i < |rows|
    ensures var r := RowCard(rows[i], "c_" + uuids[i], now);
      && (r.None? ==> CreatedCards(rows[..i + 1], uuids[..i + 1], now) == CreatedCards(rows[..i], uuids[..i], now))
      && (r.Some? ==> CreatedCards(rows[..i + 1], uuids[..i + 1], now) == CreatedCards(rows[..i], uuids[..i], now) + [r.value])
  {
    assert rows[..i + 1][..i] == rows[..i] && uuids[..i + 1][..i] == uuids[..i];
  }

  lemma DigitCellExamples()
    ensures DigitCell(Some("1990")) == Number(Some(1990))
    ensures DigitCell(Some("\U{00B2}")) == ValueError
    ensures DigitCell(None) == Number(None)
  {
    StrippedIsFixpoint("1990");
    StrippedIsFixpoint("\U{00B2}");
    StrippedIsFixpoint("");
    assert !IsDecimal("\U{00B2}"[0]);
    assert "1990"[..3] == "199" && "199"[..2] == "19" && "19"[..1] == "1" && "1"[..0] == "";
  }

  /** Each accepted row adds one card and each failing row none. */
  lemma CountThree(rows: seq<CsvRow>, uuids: seq<string>, now: Timestamp)
    requires |rows| == 3 && |uuids| == 3
    requires RowCard(rows[0], "c_" + uuids[0], now).Some?
    requires RowCard(rows[1], "c_" + uuids[1], now).None?
    requires RowCard(rows[2], "c_" + uuids[2], now).Some?
    ensures |CreatedCards(rows, uuids, now)| == 2
  {
    CreatedStep(rows, uuids, now, 0);
    CreatedStep(rows, uuids, now, 1);
    CreatedStep(rows, uuids, now, 2);
    assert rows[..0] == [] && rows[..3] == rows && uuids[..3] == uuids;
  }

  lemma RowExamples(now: Timestamp)
    ensures RowCard(map["year" := "1990", "player" := "Ken Griffey Jr."], "c_a", now).Some?
    ensures RowCard(map["year" := "\U{00B2}"], "c_b", now).None?
    ensures RowCard(map["brand" := ""], "c_c", now).Some?
  {
    DigitCellExamples();
    assert Field(map["year" := "1990", "player" := "Ken Griffey Jr."], "print_run") == None;
    assert Field(map["year" := "\U{00B2}"], "year") == Some("\U{00B2}");
    assert Field(map["brand" := ""], "year") == None && Field(map["brand" := ""], "print_run") == None;
  }

  /** A file of three rows, the second with a superscript-two year: two cards
      are created and the second row counts as an error. */
  lemma ThreeRowExample(now: Timestamp)
    ensures var rows := [map["year" := "1990", "player" := "Ken Griffey Jr."],
                         map["year" := "\U{00B2}"],
                         map["brand" := ""]];
      && |CreatedCards(rows, ["a", "b", "c"], now)| == 2
      && RowCard(rows[1], "c_b", now).None?
  {
    RowExamples(now);
    var rows := [map["year" := "1990", "player" := "Ken Griffey Jr."],
                 map["year" := "\U{00B2}"],
                 map["brand" := ""]];
    var uuids := ["a", "b", "c"];
    assert "c_" + uuids[0] == "c_a" && "c_" + uuids[1] == "c_b" && "c_" + uuids[2] == "c_c";
    CountThree(rows, uuids, now);
  }
}
