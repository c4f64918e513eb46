/** The wishlist page of the desktop client: the wishlisted cards, loaded
    in one request, and the heart that takes a card off the list. */
module WishlistUi {
  import opened Common
  import opened Query
  import opened CardsUi

  /** The parameters of the page's one request: wishlisted cards, 500 a
      page, no query. */
  const WishlistParams: Params := Params(None, 500, None, Some(true))

  function OtherCard(id: string): UiCard -> bool {
    (c: UiCard) => c.cardUuid != id
  }

  /** The list after a heart click on the card: its rows leave, the others
      stay in order. */
  function Without(cs: seq<UiCard>, id: string): seq<UiCard> {
    Filter(cs, OtherCard(id))
  }

  /** No row of the card is left, every other row keeps its multiplicity,
      and the rows keep their relative order (removal distributes over
      concatenation). */
  lemma WithoutSpec(cs: seq<UiCard>, ds: seq<UiCard>, id: string)
    ensures forall i :: 0 <= i < |Without(cs, id)| ==> Without(cs, id)[i].cardUuid != id
    ensures forall c: UiCard :: c.cardUuid != id ==> multiset(Without(cs, id))[c] == multiset(cs)[c]
    ensures forall c :: c in Without(cs, id) ==> c in cs
    ensures Without(cs + ds, id) == Without(cs, id) + Without(ds, id)
    ensures (forall i :: 0 <= i < |cs| ==> cs[i].cardUuid != id) ==> Without(cs, id) == cs
  {
    FilterMultiset(cs, OtherCard(id));
    FilterConcat(cs, ds, OtherCard(id));
    if forall i :: 0 <= i < |cs| ==> cs[i].cardUuid != id {
      KeepAll(cs, id);
    }
  }

  lemma {:induction false} KeepAll(cs: seq<UiCard>, id: string)
    requires forall i :: 0 <= i < |cs| ==> cs[i].cardUuid != id
    ensures Without(cs, id) == cs
  {
    if cs != [] {
      KeepAll(cs[1..], id);
      assert OtherCard(id)(cs[0]);
    }
  }

  class WishlistPage {
    var cards: seq<UiCard>
    var loading: bool

    constructor ()
      ensures cards == [] && !loading
    {
      cards, loading := [], false;
    }

    /** load: asks for the wishlisted cards and shows the answer as it is;
        a failed request (data None) keeps the list, and the finally clause
        still ends the loading state. */
    method Load(data: Option<seq<UiCard>>) returns (sent: Params)
      modifies this
      ensures sent == WishlistParams && sent.wishlisted == Some(true) && sent.pageSize == 500
      ensures data.Some? ==> cards == data.value
      ensures data.None? ==> cards == old(cards)
      ensures !loading
    {
      loading := true;
      sent := WishlistParams;
      if data.Some? {
        cards := data.value;
      }
      loading := false;
    }

    /** toggleWishlist: posts the negated flag, then, when the POST
        succeeds (ok), drops the card's rows; a failed POST keeps them. */
    method ToggleWishlist(id: string, current: Option<bool>, ok: bool) returns (posted: bool)
      modifies this`cards
      ensures posted == (current != Some(true))
      ensures ok ==> cards == Without(old(cards), id)
      ensures !ok ==> cards == old(cards)
    {
      posted := current != Some(true);
      if ok {
        cards := Without(cards, id);
      }
    }
  }
}
