/** Choosing which inventory items to sell: marketable trading cards that are
    not already on the market. */
module Inventory {
  import opened Text

  /** One tag of an inventory item, by its localised display name. */
  datatype Tag = Tag(localizedTagName: string)

  /** An inventory item, reduced to the fields the filter reads. */
  datatype Item = Item(id: string, marketable: bool, tags: seq<Tag>)

  /** A tag marks a trading card when its lower-cased name contains
      "trading card". */
  predicate IsTradingCardTag(t: Tag)
    ensures IsTradingCardTag(t) <==> exists i :: OccursAt(Lower(t.localizedTagName), "trading card", i)
  {
    ContainsIff(Lower(t.localizedTagName), "trading card");
    Contains(Lower(t.localizedTagName), "trading card")
  }

  /** Some tag of the item marks it as a trading card. */
  predicate IsTradingCard(item: Item)
    ensures IsTradingCard(item) <==>
      exists k, i :: 0 <= k < |item.tags| && OccursAt(Lower(item.tags[k].localizedTagName), "trading card", i)
  {
    exists k :: 0 <= k < |item.tags| && IsTradingCardTag(item.tags[k])
  }

  /** The filter's test: a marketable trading card whose id is not among the
      ids of the seller's current listings. */
  predicate Eligible(item: Item, listingIds: seq<string>)
    ensures Eligible(item, listingIds) <==>
      item.marketable && item.id !in listingIds &&
      exists k, i :: 0 <= k < |item.tags| && OccursAt(Lower(item.tags[k].localizedTagName), "trading card", i)
  {
    IsTradingCard(item) && item.marketable && item.id !in listingIds
  }

  /** The eligible items of the inventory, in inventory order. */
  function TradingCards(inventory: seq<Item>, listingIds: seq<string>): (r: seq<Item>)
    ensures |r| <= |inventory|
    ensures forall k :: 0 <= k < |r| ==> Eligible(r[k], listingIds) && r[k] in inventory
  {
    if inventory == [] then []
    else
      var init, last := inventory[..|inventory| - 1], inventory[|inventory| - 1];
      assert inventory == init + [last];
      TradingCards(init, listingIds) + (if Eligible(last, listingIds) then [last] else [])
  }

  /** An item is selected exactly when it is in the inventory and eligible. */
  lemma {:induction false} TradingCardsMembership(inventory: seq<Item>, listingIds: seq<string>, x: Item)
    ensures x in TradingCards(inventory, listingIds) <==> x in inventory && Eligible(x, listingIds)
    decreases |inventory|
  {
    if inventory != [] {
      var init, last := inventory[..|inventory| - 1], inventory[|inventory| - 1];
      assert inventory == init + [last];
      TradingCardsMembership(init, listingIds, x);
    }
  }

  /** Filtering a concatenation filters each part and keeps them in order; with
      TradingCardsSingle this pins the result down to the eligible items in
      their original order. */
  lemma {:induction false} TradingCardsAppend(a: seq<Item>, b: seq<Item>, listingIds: seq<string>)
    ensures TradingCards(a + b, listingIds) == TradingCards(a, listingIds) + TradingCards(b, listingIds)
    decreases |b|
  {
    if b == [] {
      assert a + b == a;
    } else {
      var init, last := b[..|b| - 1], b[|b| - 1];
      assert b == init + [last];
      assert a + b == (a + init) + [last];
      TradingCardsAppend(a, init, listingIds);
    }
  }

  /** A single item is kept exactly when it is eligible. */
  lemma TradingCardsSingle(x: Item, listingIds: seq<string>)
    ensures TradingCards([x], listingIds) == if Eligible(x, listingIds) then [x] else []
  {
    assert [x][..0] == [];
  }
}
