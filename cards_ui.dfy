/** The card browser page of the desktop client: the committed query and
    the search box, paging over the listing, the sport -> year -> product
    browse cascade, the front/back media map and the wishlist heart.
    Server responses are given to the methods as values (a failed request
    is None, and a POST's outcome is a flag); the base URL of the API is a
    constant of the page. */
module CardsUi {
  import opened Common
  import opened Query

  /** A card as the client sees it; absent JSON fields are None. */
  datatype UiCard = UiCard(
    cardUuid: string, year: Option<int>, brand: Option<string>, setName: Option<string>,
    cardNo: Option<string>, player: Option<string>, sport: Option<string>, updatedAt: string,
    wishlisted: Option<bool>)

  /** The query parameters of a GET /v1/cards request. */
  datatype Params = Params(page: Option<int>, pageSize: int, q: Option<string>, wishlisted: Option<bool>)

  const PageSize: int := 50

  // --------------------------------------------------------- load request

  /** The parameters load sends: the page, the page size, and q only when
      the committed query is not empty. */
  function LoadParams(page: int, q: string): (p: Params)
    ensures p.page == Some(page) && p.pageSize == PageSize && p.wishlisted == None
    ensures p.q.Some? <==> q != ""
    ensures p.q.Some? ==> p.q.value == q
  {
    Params(Some(page), PageSize, if q != "" then Some(q) else None, None)
  }

  // ----------------------------------------------------- response shapes

  /** GET /v1/cards answers either a bare array or an envelope; total is
      Some only when the envelope's total is a number. */
  datatype CardsResponse =
    | Bare(rows: seq<UiCard>)
    | Envelope(items: Option<seq<UiCard>>, total: Option<int>)

  function ItemsOf(r: CardsResponse): seq<UiCard> {
    match r
    case Bare(rows) => rows
    case Envelope(items, _) => items.GetOr([])
  }

  function TotalOf(r: CardsResponse): Option<int> {
    match r
    case Bare(_) => None
    case Envelope(_, total) => total
  }

  /** Both shapes carry the same rows; only the envelope can carry a count,
      and an envelope without items shows no rows. */
  lemma ResponseShapes(rows: seq<UiCard>, total: Option<int>)
    ensures ItemsOf(Bare(rows)) == ItemsOf(Envelope(Some(rows), total)) == rows
    ensures TotalOf(Bare(rows)) == None && TotalOf(Envelope(Some(rows), total)) == total
    ensures ItemsOf(Envelope(None, total)) == []
  {
  }

  /** A browse endpoint answers a bare list or an object holding it under
      one field (sports, years or products), which may be missing. */
  datatype ListResponse<T> = BareList(xs: seq<T>) | Wrapped(field: Option<seq<T>>)

  function ListOf<T>(r: ListResponse<T>): seq<T> {
    match r
    case BareList(xs) => xs
    case Wrapped(f) => f.GetOr([])
  }

  // --------------------------------------------------------------- media

  datatype Slot = Slot(thumb: string, full: string)

  /** The images shown for one card; a missing side has no slot. */
  datatype Pair = Pair(front: Option<Slot>, back: Option<Slot>)

  const NoPair: Pair := Pair(None, None)

  /** One side of a GET /v1/media/pair answer. */
  datatype MediaUrls = MediaUrls(thumbUrl: Option<string>, url: Option<string>)

  datatype PairResponse = PairResponse(front: Option<MediaUrls>, back: Option<MediaUrls>)

  /** toAbs: a path under the API base, or "" for a missing or empty path. */
  function ToAbs(base: string, u: Option<string>): (r: string)
    ensures !Truthy(u) ==> r == ""
    ensures Truthy(u) ==> r != "" && StartsWith(r, base) && EndsWith(r, u.value)
  {
    if Truthy(u) then base + u.value else ""
  }

  function SlotOf(base: string, m: MediaUrls): Slot {
    Slot(ToAbs(base, m.thumbUrl), ToAbs(base, m.url))
  }

  /** The pair shown for one card; a failed request shows nothing. */
  function PairOf(base: string, resp: Option<PairResponse>): Pair {
    if resp.None? then NoPair
    else
      Pair(if resp.value.front.Some? then Some(SlotOf(base, resp.value.front.value)) else None,
           if resp.value.back.Some? then Some(SlotOf(base, resp.value.back.value)) else None)
  }

  /** Object.fromEntries over the rows: the pair for each card, a later
      row with the same id overwriting an earlier one. */
  function MediaOf(base: string, rows: seq<UiCard>, fetch: string -> Option<PairResponse>): map<string, Pair> {
    if rows == [] then map[]
    else
      var last := rows[|rows| - 1];
      MediaOf(base, rows[..|rows| - 1], fetch)[last.cardUuid := PairOf(base, fetch(last.cardUuid))]
  }

  /** The media map has an entry for exactly the listed cards, each the pair
      fetched for that card. */
  lemma {:induction false} MediaOfSpec(base: string, rows: seq<UiCard>, fetch: string -> Option<PairResponse>)
    ensures forall id :: id in MediaOf(base, rows, fetch) <==> exists i :: 0 <= i < |rows| && rows[i].cardUuid == id
    ensures forall id :: id in MediaOf(base, rows, fetch) ==> MediaOf(base, rows, fetch)[id] == PairOf(base, fetch(id))
  {
    if rows != [] {
      var init := rows[..|rows| - 1];
      MediaOfSpec(base, init, fetch);
      forall id ensures id in MediaOf(base, rows, fetch) <==> exists i :: 0 <= i < |rows| && rows[i].cardUuid == id {
        if exists i :: 0 <= i < |init| && init[i].cardUuid == id {
          var i :| 0 <= i < |init| && init[i].cardUuid == id;
          assert rows[i] == init[i];
        }
        if exists i :: 0 <= i < |rows| && rows[i].cardUuid == id {
          var i :| 0 <= i < |rows| && rows[i].cardUuid == id;
          if i < |init| {
            assert init[i] == rows[i];
          }
        }
      }
    }
  }

  /** The URLs of an upload answer. */
  datatype UploadAnswer = UploadAnswer(thumbUrl: Option<string>, url: Option<string>)

  /** The pair after an upload: the uploaded side gets the new image, its
      thumbnail falling back to the full image. */
  function WithUpload(base: string, prev: Pair, side: Side, thumbUrl: Option<string>, url: Option<string>): Pair {
    var full := ToAbs(base, url);
    var thumb := if ToAbs(base, thumbUrl) != "" then ToAbs(base, thumbUrl) else full;
    if side == Front then prev.(front := Some(Slot(thumb, full))) else prev.(back := Some(Slot(thumb, full)))
  }

  datatype Side = Front | Back

  function PairAt(media: map<string, Pair>, id: string): Pair {
    if id in media then media[id] else NoPair
  }

  /** An upload changes the uploaded side of the uploaded card only; the
      thumbnail is the full image when the server sent no thumbnail. */
  lemma UploadSpec(base: string, media: map<string, Pair>, id: string, side: Side,
                   thumbUrl: Option<string>, url: Option<string>)
    ensures var m := media[id := WithUpload(base, PairAt(media, id), side, thumbUrl, url)];
      && (forall k :: k in m <==> k in media || k == id)
      && (forall k :: k in media && k != id ==> m[k] == media[k])
      && (side == Front ==> m[id].back == PairAt(media, id).back && m[id].front.Some?)
      && (side == Back ==> m[id].front == PairAt(media, id).front && m[id].back.Some?)
      && (var s := if side == Front then m[id].front.value else m[id].back.value;
          s.full == ToAbs(base, url) && (!Truthy(thumbUrl) ==> s.thumb == s.full))
  {
  }

  // -------------------------------------------------------------- paging

  /** Math.ceil(n / d) for a positive d. */
  function CeilDiv(n: int, d: int): int
    requires d > 0
  {
    -((-n) / d)
  }

  /** totalPages: unknown without a count, else enough pages for the
      count and at least one. */
  function TotalPages(total: Option<int>): (r: Option<int>)
    ensures r.Some? <==> total.Some?
    ensures r.Some? ==> r.value >= 1 && total.value <= PageSize * r.value
    ensures r.Some? && r.value > 1 ==> PageSize * (r.value - 1) < total.value
  {
    if total.None? then None
    else
      var c := CeilDiv(total.value, PageSize);
      Some(if c > 1 then c else 1)
  }

  function PrevPage(page: int): (r: int)
    ensures r >= 1 && (page > 1 ==> r == page - 1) && (page <= 1 ==> r == 1)
  {
    if page - 1 > 1 then page - 1 else 1
  }

  /** disabled on the Next button: a known page count that the page has
      reached. */
  predicate NextDisabled(page: int, total: Option<int>) {
    TotalPages(total).Some? && page >= TotalPages(total).value
  }

  function NextPage(page: int, totalPages: Option<int>): int {
    if totalPages.Some? then (if totalPages.value < page + 1 then totalPages.value else page + 1) else page + 1
  }

  /** Next never passes the known last page and moves at most one page on;
      both buttons keep a page in 1..totalPages inside that range. */
  lemma PagingStaysInRange(page: int, total: Option<int>)
    requires page >= 1
    ensures var tp := TotalPages(total);
      && NextPage(page, tp) <= page + 1
      && (tp.Some? ==> NextPage(page, tp) <= tp.value)
      && (tp.Some? && page < tp.value ==> NextPage(page, tp) == page + 1)
      && (tp.None? ==> NextPage(page, tp) == page + 1)
      && (tp.Some? && page <= tp.value ==> 1 <= NextPage(page, tp) && 1 <= PrevPage(page) <= tp.value)
  {
  }

  // -------------------------------------------------------------- browse

  /** A product entry: a string, an object with an optional label, or null. */
  datatype Product = Name(s: string) | Labelled(text: Option<string>) | Null

  function LabelOf(p: Product): string {
    match p
    case Name(s) => s
    case Labelled(l) => l.GetOr("")
    case Null => ""
  }

  /** The map to labels followed by filter(Boolean). */
  function Products(raw: seq<Product>): seq<string> {
    if raw == [] then []
    else
      var rest := Products(raw[1..]);
      if LabelOf(raw[0]) != "" then [LabelOf(raw[0])] + rest else rest
  }

  /** The products shown are exactly the non-empty labels, and there are
      no more of them than entries in the answer. */
  lemma {:induction false} ProductsSpec(raw: seq<Product>)
    ensures forall i :: 0 <= i < |Products(raw)| ==> Products(raw)[i] != ""
    ensures forall x :: x in Products(raw) <==> exists i :: 0 <= i < |raw| && LabelOf(raw[i]) == x && x != ""
    ensures |Products(raw)| <= |raw|
  {
    if raw != [] {
      ProductsSpec(raw[1..]);
      forall x ensures x in Products(raw) <==> exists i :: 0 <= i < |raw| && LabelOf(raw[i]) == x && x != "" {
        if exists i :: 1 <= i < |raw| && LabelOf(raw[i]) == x && x != "" {
          var i :| 1 <= i < |raw| && LabelOf(raw[i]) == x && x != "";
          assert raw[1..][i - 1] == raw[i];
        }
        if exists i :: 0 <= i < |raw[1..]| && LabelOf(raw[1..][i]) == x && x != "" {
          var i :| 0 <= i < |raw[1..]| && LabelOf(raw[1..][i]) == x && x != "";
          assert raw[i + 1] == raw[1..][i];
        }
      }
    }
  }

  /** Strings, labelled objects and nulls map as the client promises. */
  lemma ProductExamples(s: string, t: string)
    requires s != "" && t != ""
    ensures Products([Name(s), Labelled(Some(t)), Labelled(None), Null, Name("")]) == [s, t]
  {
    var raw := [Name(s), Labelled(Some(t)), Labelled(None), Null, Name("")];
    assert raw[1..] == [Labelled(Some(t)), Labelled(None), Null, Name("")];
    assert raw[1..][1..] == [Labelled(None), Null, Name("")];
    assert raw[1..][1..][1..] == [Null, Name("")];
    assert raw[1..][1..][1..][1..] == [Name("")];
    assert [Name("")][1..] == [];
    assert Products([Name("")]) == [];
    assert Products([Null, Name("")]) == [];
    assert Products([Labelled(None), Null, Name("")]) == [];
    assert Products(raw[1..]) == [t];
  }

  function YearKey(y: int): int {
    y
  }

  /** years.sort((a, b) => b - a): newest first, the same years. */
  function NewestFirst(ys: seq<int>): (r: seq<int>)
    ensures forall i, j :: 0 <= i < j < |r| ==> r[i] >= r[j]
    ensures multiset(r) == multiset(ys)
  {
    var r := SortDesc(ys, YearKey);
    assert forall i, j :: 0 <= i < j < |r| ==> YearKey(r[i]) >= YearKey(r[j]);
    r
  }

  /** JavaScript truthiness of an optional year: present and not 0. */
  predicate YearSet(y: Option<int>) {
    y.Some? && y.value != 0
  }

  // ----------------------------------------------------------------- page

  /** The state of the page component. */
  class CardsPage {
    var cards: seq<UiCard>
    var total: Option<int>
    var page: int
    var q: string
    var qText: string
    var loading: bool
    var media: map<string, Pair>
    var sports: seq<string>
    var years: seq<int>
    var products: seq<string>
    var selSport: Option<string>
    var selYear: Option<int>
    var selProduct: Option<string>
    /** VITE_API_BASE_URL. */
    const apiBase: string

    /** The page number never drops below 1. */
    predicate Valid()
      reads this`page
    {
      page >= 1
    }

    constructor (apiBase: string)
      ensures Valid() && this.apiBase == apiBase
      ensures cards == [] && total == None && page == 1 && q == "" && qText == "" && !loading
      ensures media == map[] && sports == [] && years == [] && products == []
      ensures selSport == None && selYear == None && selProduct == None
    {
      this.apiBase := apiBase;
      cards, total, page, q, qText, loading := [], None, 1, "", "", false;
      media, sports, years, products := map[], [], [], [];
      selSport, selYear, selProduct := None, None, None;
    }

    /** load: sends the page request, shows the rows and the count of the
        answer, then the media pair of every row (fetch answers the pair
        request of one card, None when it fails). A failed page request
        (resp None) keeps the rows, the count and the media, and the finally
        clause still ends the loading state. */
    method Load(resp: Option<CardsResponse>, fetch: string -> Option<PairResponse>) returns (sent: Params)
      modifies this`cards, this`total, this`media, this`loading
      ensures sent == LoadParams(page, q)
      ensures resp.Some? ==> cards == ItemsOf(resp.value) && total == TotalOf(resp.value)
      ensures resp.Some? ==> media == MediaOf(apiBase, ItemsOf(resp.value), fetch)
      ensures resp.None? ==> cards == old(cards) && total == old(total) && media == old(media)
      ensures !loading
    {
      loading := true;
      sent := LoadParams(page, q);
      if resp.Some? {
        var items := ItemsOf(resp.value);
        cards := items;
        total := TotalOf(resp.value);
        media := MediaOf(apiBase, items, fetch);
      }
      loading := false;
    }

    /** Typing in the search box edits only the box. */
    method Type(text: string)
      modifies this`qText
      ensures qText == text
    {
      qText := text;
    }

    /** submit (Enter in the search box): commits the trimmed text and
        goes back to the first page. */
    method Submit()
      modifies this`q, this`page
      ensures Valid()
      ensures q == Strip(qText) && page == 1
    {
      q := Strip(qText);
      page := 1;
    }

    /** clear: empties the box and the query, goes to the first page and
        drops the product pick; the sport and year picks stay. */
    method Clear()
      modifies this`q, this`qText, this`page, this`selProduct
      ensures Valid()
      ensures q == "" && qText == "" && page == 1 && selProduct == None
    {
      qText := "";
      q := "";
      page := 1;
      selProduct := None;
    }

    method Prev()
      requires Valid()
      modifies this`page
      ensures Valid() && page == PrevPage(old(page))
    {
      page := PrevPage(page);
    }

    /** A click on Next: the button is disabled on the last page (and past
        it, after a reload shrank the count), where the click does nothing;
        otherwise the handler moves one page forward. */
    method Next()
      requires Valid()
      modifies this`page
      ensures Valid()
      ensures NextDisabled(old(page), total) ==> page == old(page)
      ensures !NextDisabled(old(page), total) ==> page == NextPage(old(page), TotalPages(total)) == old(page) + 1
    {
      PagingStaysInRange(page, total);
      if !NextDisabled(page, total) {
        page := NextPage(page, TotalPages(total));
      }
    }

    /** The sports effect on mount; a failed request leaves the list. */
    method LoadSports(resp: Option<ListResponse<string>>)
      modifies this`sports
      ensures resp.Some? ==> sports == ListOf(resp.value)
      ensures resp.None? ==> sports == old(sports)
    {
      if resp.Some? {
        sports := ListOf(resp.value);
      }
    }

    /** A click on a sport chip toggles the sport; the sport effect then
        loads its years newest first (none when the sport is cleared or the
        request fails) and clears the year, the product pick and the
        product list. */
    method PickSport(s: string, resp: Option<ListResponse<int>>)
      modifies this`selSport, this`years, this`products, this`selYear, this`selProduct
      ensures selSport == (if old(selSport) == Some(s) then None else Some(s))
      ensures years == (if Truthy(selSport) && resp.Some? then NewestFirst(ListOf(resp.value)) else [])
      ensures products == [] && selYear == None && selProduct == None
    {
      selSport := if selSport == Some(s) then None else Some(s);
      if !Truthy(selSport) {
        years := [];
      } else if resp.Some? {
        years := NewestFirst(ListOf(resp.value));
      } else {
        years := [];
      }
      products := [];
      selYear := None;
      selProduct := None;
    }

    /** A click on a year chip toggles the year; the year effect then loads
        the normalised products when both a sport and a year are picked
        (none otherwise or when the request fails) and clears the product
        pick. */
    method PickYear(y: int, resp: Option<ListResponse<Product>>)
      modifies this`selYear, this`products, this`selProduct
      ensures selYear == (if old(selYear) == Some(y) then None else Some(y))
      ensures products == (if Truthy(selSport) && YearSet(selYear) && resp.Some? then Products(ListOf(resp.value)) else [])
      ensures selProduct == None
    {
      selYear := if selYear == Some(y) then None else Some(y);
      if !Truthy(selSport) || !YearSet(selYear) {
        products := [];
      } else if resp.Some? {
        products := Products(ListOf(resp.value));
      } else {
        products := [];
      }
      selProduct := None;
    }

    /** A click on a product: the product effect puts it in the box and
        the query and goes to the first page (nothing for an empty name).
        Picking the product already picked leaves the state as it is, so
        the effect, which depends on the pick alone, does not run again. */
    method PickProduct(p: string)
      requires Valid()
      modifies this`selProduct, this`qText, this`q, this`page
      ensures Valid() && selProduct == Some(p)
      ensures p != "" && old(selProduct) != Some(p) ==> qText == p && q == p && page == 1
      ensures p == "" || old(selProduct) == Some(p) ==> qText == old(qText) && q == old(q) && page == old(page)
    {
      if selProduct != Some(p) {
        selProduct := Some(p);
        if p != "" {
          qText := p;
          q := p;
          page := 1;
        }
      }
    }

    /** upload: the answer's image goes to the chosen side of the card; a
        failed POST (resp None) changes nothing. */
    method Upload(id: string, side: Side, resp: Option<UploadAnswer>)
      modifies this`media
      ensures resp.Some? ==>
        media == old(media)[id := WithUpload(apiBase, PairAt(old(media), id), side, resp.value.thumbUrl, resp.value.url)]
      ensures resp.None? ==> media == old(media)
    {
      if resp.Some? {
        var prev := PairAt(media, id);
        media := media[id := WithUpload(apiBase, prev, side, resp.value.thumbUrl, resp.value.url)];
      }
    }

    /** toggleWishlist: posts the negated flag, then, when the POST
        succeeds (ok), sets it on the rows of that card; a failed POST
        leaves the rows. */
    method ToggleWishlist(id: string, current: Option<bool>, ok: bool) returns (posted: bool)
      modifies this`cards
      ensures posted == (current != Some(true))
      ensures ok ==> cards == Flagged(old(cards), id, posted)
      ensures !ok ==> cards == old(cards)
    {
      posted := current != Some(true);
      if ok {
        cards := Flagged(cards, id, posted);
      }
    }
  }

  /** The rows with the card's id get the flag; the others are kept. */
  function Flagged(cs: seq<UiCard>, id: string, v: bool): seq<UiCard> {
    seq(|cs|, i requires 0 <= i < |cs| => if cs[i].cardUuid == id then cs[i].(wishlisted := Some(v)) else cs[i])
  }

  /** Only the flag of the matching rows changes; a second toggle overrides
      the first, and setting a flag the rows already have changes nothing. */
  lemma FlaggedSpec(cs: seq<UiCard>, id: string, v: bool, w: bool)
    ensures |Flagged(cs, id, v)| == |cs|
    ensures forall i :: 0 <= i < |cs| ==> Flagged(cs, id, v)[i].(wishlisted := cs[i].wishlisted) == cs[i]
    ensures forall i :: 0 <= i < |cs| && cs[i].cardUuid == id ==> Flagged(cs, id, v)[i].wishlisted == Some(v)
    ensures forall i :: 0 <= i < |cs| && cs[i].cardUuid != id ==> Flagged(cs, id, v)[i] == cs[i]
    ensures Flagged(Flagged(cs, id, v), id, w) == Flagged(cs, id, w)
    ensures (forall i :: 0 <= i < |cs| && cs[i].cardUuid == id ==> cs[i].wishlisted == Some(v)) ==> Flagged(cs, id, v) == cs
  {
  }
}
