/** GET /v1/export/cards.csv: every live card, oldest first, written as one
    CSV line of sixteen columns after a header line. CSV quoting is not
    modelled; a line is the sequence of cells handed to the writer. */
module Export {
  import opened Common
  import opened Models
  import opened Query
  import opened Store

  /** A value handed to the CSV writer; None is written as an empty field. */
  datatype Cell = StrCell(s: string) | IntCell(n: int) | TimeCell(t: Timestamp) | NullCell

  const Header: seq<string> := [
    "card_uuid", "year", "brand", "set_name", "subset", "card_no", "player", "team", "sport",
    "parallel", "variant", "print_run", "notes", "canonical_key", "created_at", "updated_at"]

  function OptStr(v: Option<string>): Cell {
    if v.Some? then StrCell(v.value) else NullCell
  }

  function OptInt(v: Option<int>): Cell {
    if v.Some? then IntCell(v.value) else NullCell
  }

  /** The value of the card column with the given name; a name that is not a
      card column has no value. */
  function Column(c: Card, name: string): Option<Cell> {
    match name
    case "card_uuid" => Some(StrCell(c.cardUuid))
    case "tenant_id" => Some(StrCell(c.tenantId))
    case "schema_version" => Some(StrCell(c.schemaVersion))
    case "created_at" => Some(TimeCell(c.createdAt))
    case "updated_at" => Some(TimeCell(c.updatedAt))
    case "deleted_at" => Some(if c.deletedAt.Some? then TimeCell(c.deletedAt.value) else NullCell)
    case "year" => Some(OptInt(c.year))
    case "brand" => Some(OptStr(c.brand))
    case "set_name" => Some(OptStr(c.setName))
    case "subset" => Some(OptStr(c.subset))
    case "card_no" => Some(OptStr(c.cardNo))
    case "player" => Some(OptStr(c.player))
    case "team" => Some(OptStr(c.team))
    case "sport" => Some(OptStr(c.sport))
    case "parallel" => Some(OptStr(c.parallel))
    case "variant" => Some(OptStr(c.variant))
    case "print_run" => Some(OptStr(c.printRun))
    case "notes" => Some(OptStr(c.notes))
    case "canonical_key" => Some(OptStr(c.canonicalKey))
    case "created_by_user_id" => Some(OptStr(c.createdByUserId))
    case "updated_by_user_id" => Some(OptStr(c.updatedByUserId))
    case _ => None
  }

  /** The data line of one card, in the order the writer is given the columns. */
  function RowOf(c: Card): (r: seq<Cell>)
    ensures |r| == |Header|
  {
    [StrCell(c.cardUuid), OptInt(c.year), OptStr(c.brand), OptStr(c.setName), OptStr(c.subset),
     OptStr(c.cardNo), OptStr(c.player), OptStr(c.team), OptStr(c.sport), OptStr(c.parallel),
     OptStr(c.variant), OptStr(c.printRun), OptStr(c.notes), OptStr(c.canonicalKey),
     TimeCell(c.createdAt), TimeCell(c.updatedAt)]
  }

  /** Every cell of a data line is the value of the column its header names. */
  lemma ExportAligned(c: Card)
    ensures |RowOf(c)| == |Header| == 16
    ensures forall i :: 0 <= i < |Header| ==> Column(c, Header[i]) == Some(RowOf(c)[i])
  {
  }

  /** The header names sixteen distinct card columns. */
  lemma HeaderDistinct()
    ensures Distinct(Header)
    ensures forall c: Card, i :: 0 <= i < |Header| ==> Column(c, Header[i]).Some?
  {
  }

  function CardCreatedAt(c: Card): int {
    c.createdAt
  }

  function IsLive(c: Card): bool {
    c.Live()
  }

  /** The SELECT: live cards by created_at, ascending. */
  function Selected(t: Table<Card>): seq<Card>
    requires t.Valid()
  {
    SortAsc(Filter(t.Values(), IsLive), CardCreatedAt)
  }

  /** Distinct keys name distinct cards, so a table scan repeats no card. */
  lemma ValuesDistinct(t: Table<Card>)
    requires t.Valid() && CardKeys(t)
    ensures Distinct(t.Values())
  {
    var vs := t.Values();
    forall i, j | 0 <= i < j < |vs| ensures vs[i] != vs[j] {
      assert vs[i].cardUuid == t.order[i] && vs[j].cardUuid == t.order[j];
    }
  }

  /** The export holds each live card exactly once and no deleted card, in
      ascending created_at order. */
  lemma SelectedSpec(t: Table<Card>)
    requires t.Valid() && CardKeys(t)
    ensures forall c :: c in Selected(t) <==> c in t.Values() && c.Live()
    ensures forall k :: k in t.rows && t.rows[k].Live() ==> t.rows[k] in Selected(t)
    ensures forall i, j :: 0 <= i < j < |Selected(t)| ==> Selected(t)[i].cardUuid != Selected(t)[j].cardUuid
    ensures SortedAsc(Selected(t), CardCreatedAt)
  {
    var s := Selected(t);
    FilterMultiset(t.Values(), IsLive);
    forall c ensures c in s <==> c in t.Values() && c.Live() {
      assert c in s <==> c in multiset(Filter(t.Values(), IsLive));
    }
    forall k | k in t.rows && t.rows[k].Live() ensures t.rows[k] in s {
      InValues(t, t.rows[k]);
    }
    ValuesDistinct(t);
    SortAscFilterDistinct(t.Values(), IsLive, CardCreatedAt);
    forall i, j | 0 <= i < j < |s| ensures s[i].cardUuid != s[j].cardUuid {
      assert s[i] in t.Values() && s[j] in t.Values();
      InValues(t, s[i]);
      InValues(t, s[j]);
    }
  }

  function HeaderLine(): (r: seq<Cell>)
    ensures |r| == |Header| && forall i :: 0 <= i < |Header| ==> r[i] == StrCell(Header[i])
  {
    seq(|Header|, i requires 0 <= i < |Header| => StrCell(Header[i]))
  }

  /** The writer loop: the header line, then one line per selected card. */
  method ExportCards(db: Database) returns (lines: seq<seq<Cell>>)
    requires db.Valid()
    ensures |lines| == 1 + |Selected(db.cards)|
    ensures lines[0] == HeaderLine()
    ensures forall i :: 0 <= i < |Selected(db.cards)| ==> lines[i + 1] == RowOf(Selected(db.cards)[i])
  {
    var rows := Selected(db.cards);
    lines := [HeaderLine()];
    for i := 0 to |rows|
      invariant |lines| == 1 + i
      invariant lines[0] == HeaderLine()
      invariant forall j :: 0 <= j < i ==> lines[j + 1] == RowOf(rows[j])
    {
      lines := lines + [RowOf(rows[i])];
    }
  }
}
