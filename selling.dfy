/** Selling the selected cards: for each card, submit a sell order and retry
    transient failures with a growing backoff until the order is accepted,
    rejected for good, or the backoff reaches the cap. The remote marketplace
    is an oracle: the responses it would give are passed in, and the sleeps
    and submitted orders are recorded in ghost logs. */
module Selling {
  import opened Text
  import opened Pricing
  import opened Inventory

  /** Cap on the backoff: an item is skipped once the backoff reaches it. */
  const SKIP_ITEM_BACKOFF: real := 120.0
  /** Seconds of the first backoff, and of the pause after a successful order. */
  const STARTING_BACKOFF: real := 4.0
  /** Factor by which the backoff grows after every retryable failure. */
  const BACKOFF_MULT: real := 1.6
  /** Failure messages that contain one of these are retried. */
  const RETRY_MESSAGE_CONDITIONS: seq<string> := ["refresh the page"]
  /** The most sell orders one card can cause, given the three constants above. */
  const MAX_CALLS: nat := 8

  /** A response of the remote sell-order call. */
  datatype Response = Response(success: bool, message: string)

  /** One sell order as submitted: the item id and the price in pennies. */
  datatype Order = Order(itemId: string, pennies: int)

  /** How the selling of one card ends. */
  datatype Outcome = Listed | Errored | Skipped

  /** The outcome for one card together with the number of orders it took. */
  datatype Settled = Settled(outcome: Outcome, calls: nat)

  /** A failure message is retryable when its lower-cased form contains one of
      the retry conditions. */
  predicate Retryable(message: string)
    ensures Retryable(message) <==> exists i :: OccursAt(Lower(message), "refresh the page", i)
  {
    ContainsIff(Lower(message), RETRY_MESSAGE_CONDITIONS[0]);
    exists k :: 0 <= k < |RETRY_MESSAGE_CONDITIONS| && Contains(Lower(message), RETRY_MESSAGE_CONDITIONS[k])
  }

  /** A response that leads to another attempt. */
  predicate Retry(r: Response)
  {
    !r.success && Retryable(r.message)
  }

  /** The backoff in force before the attempt numbered `n` (from 0). */
  function Backoff(n: nat): (r: real)
    ensures r >= STARTING_BACKOFF
  {
    if n == 0 then STARTING_BACKOFF else Backoff(n - 1) * BACKOFF_MULT
  }

  /** The backoff strictly increases from one attempt to the next. */
  lemma {:induction false} BackoffIncreasing(m: nat, n: nat)
    requires m < n
    ensures Backoff(m) < Backoff(n)
    decreases n
  {
    if m < n - 1 {
      BackoffIncreasing(m, n - 1);
    }
  }

  /** The guard lets attempt `n` through exactly when `n` is below MAX_CALLS:
      4, 6.4, 10.24, ..., 107.3741824 are below 120, and 171.79869184 is not. */
  lemma BackoffBelowCap(n: nat)
    ensures Backoff(n) < SKIP_ITEM_BACKOFF <==> n < MAX_CALLS
  {
    assert Backoff(1) == 6.4;
    assert Backoff(2) == 10.24;
    assert Backoff(3) == 16.384;
    assert Backoff(4) == 26.2144;
    assert Backoff(5) == 41.94304;
    assert Backoff(6) == 67.108864;
    assert Backoff(7) == 107.3741824;
    assert Backoff(8) == 171.79869184;
    if n < 7 {
      BackoffIncreasing(n, 7);
    } else if n > 8 {
      BackoffIncreasing(8, n);
    }
  }

  /** The first `n` backoffs, in order: the sleeps of `n` retried attempts. */
  function Backoffs(n: nat): (r: seq<real>)
    ensures |r| == n
    ensures forall i :: 0 <= i < n ==> r[i] == Backoff(i)
  {
    if n == 0 then [] else Backoffs(n - 1) + [Backoff(n - 1)]
  }

  /** Total of a sequence of durations. */
  function Sum(s: seq<real>): real
  {
    if s == [] then 0.0 else Sum(s[..|s| - 1]) + s[|s| - 1]
  }

  /** A card that is skipped has slept, in all, longer than the cap. */
  lemma SkippedSleepReachesCap()
    ensures Sum(Backoffs(MAX_CALLS)) >= SKIP_ITEM_BACKOFF
  {
    var b := Backoffs(MAX_CALLS);
    BackoffBelowCap(0);
    assert b[6] == 67.108864 && b[7] == 107.3741824;
    assert b[..7][..6] == b[..6];
    assert Sum(b) == Sum(b[..7]) + b[7];
    assert Sum(b[..7]) == Sum(b[..6]) + b[6];
    SumNonNegative(b[..6]);
  }

  /** A sum of backoffs is not negative. */
  lemma {:induction false} SumNonNegative(s: seq<real>)
    requires forall i :: 0 <= i < |s| ==> s[i] >= 0.0
    ensures Sum(s) >= 0.0
    decreases |s|
  {
    if s != [] {
      SumNonNegative(s[..|s| - 1]);
    }
  }

  /** The per-card loop as a function of the responses, from attempt `n` on:
      the guard is checked first; a success lists the card, a retryable
      failure moves to the next attempt, any other failure ends the card. */
  function Settle(responses: seq<Response>, n: nat): (s: Settled)
    requires |responses| >= MAX_CALLS
    ensures n < MAX_CALLS ==> n < s.calls <= MAX_CALLS
    ensures MAX_CALLS <= n ==> s == Settled(Skipped, n)
    ensures n <= MAX_CALLS && s.outcome == Skipped ==> s.calls == MAX_CALLS
    decreases MAX_CALLS - n
  {
    BackoffBelowCap(n);
    if Backoff(n) >= SKIP_ITEM_BACKOFF then Settled(Skipped, n)
    else if responses[n].success then Settled(Listed, n + 1)
    else if Retryable(responses[n].message) then Settle(responses, n + 1)
    else Settled(Errored, n + 1)
  }

  /** The sleeps of one card, given how it settled: the backoff before each
      retried attempt, in order, and after a success one more pause of
      STARTING_BACKOFF seconds. A card that ends in an error sleeps only for its
      retries. */
  function SleepLog(s: Settled): (r: seq<real>)
    requires s.calls >= 1
    ensures |r| == if s.outcome == Errored then s.calls - 1 else s.calls
    ensures forall i :: 0 <= i < |r| ==> r[i] >= STARTING_BACKOFF
    ensures s.outcome == Listed ==> r[|r| - 1] == STARTING_BACKOFF
  {
    match s.outcome
    case Listed => Backoffs(s.calls - 1) + [STARTING_BACKOFF]
    case Errored => Backoffs(s.calls - 1)
    case Skipped => Backoffs(s.calls)
  }

  /** Every response before attempt `k` asked for a retry. */
  predicate RetriedBefore(responses: seq<Response>, from: nat, k: nat)
    requires k <= |responses|
  {
    forall j :: from <= j < k ==> Retry(responses[j])
  }

  /** What Settle returns always has this shape: at least one and at most
      MAX_CALLS orders, every response but the last asked for a retry, and the
      last one decides the outcome. */
  lemma {:induction false} SettleShape(responses: seq<Response>, n: nat)
    requires |responses| >= MAX_CALLS && n < MAX_CALLS
    ensures var s := Settle(responses, n);
      n < s.calls <= MAX_CALLS &&
      RetriedBefore(responses, n, s.calls - 1) &&
      (s.outcome == Listed ==> responses[s.calls - 1].success) &&
      (s.outcome == Errored ==> !responses[s.calls - 1].success && !Retryable(responses[s.calls - 1].message)) &&
      (s.outcome == Skipped ==> s.calls == MAX_CALLS && Retry(responses[MAX_CALLS - 1]))
    decreases MAX_CALLS - n
  {
    BackoffBelowCap(n);
    var r := responses[n];
    if !r.success && Retryable(r.message) {
      if n + 1 < MAX_CALLS {
        SettleShape(responses, n + 1);
      } else {
        BackoffBelowCap(n + 1);
      }
    }
  }

  /** Conversely, the first response from attempt `n` on that is not a retry
      decides the outcome, after exactly that many orders. */
  lemma {:induction false} SettleDecided(responses: seq<Response>, n: nat, k: nat)
    requires |responses| >= MAX_CALLS && n <= k < MAX_CALLS
    requires RetriedBefore(responses, n, k) && !Retry(responses[k])
    ensures Settle(responses, n) ==
      if responses[k].success then Settled(Listed, k + 1) else Settled(Errored, k + 1)
    decreases k - n
  {
    BackoffBelowCap(n);
    if n < k {
      SettleDecided(responses, n + 1, k);
    }
  }

  /** Conversely, when every attempt from `n` on is retried, the card is
      skipped after MAX_CALLS orders. */
  lemma {:induction false} SettleExhausted(responses: seq<Response>, n: nat)
    requires |responses| >= MAX_CALLS && n <= MAX_CALLS
    requires RetriedBefore(responses, n, MAX_CALLS)
    ensures Settle(responses, n) == Settled(Skipped, MAX_CALLS)
    decreases MAX_CALLS - n
  {
    BackoffBelowCap(n);
    if n < MAX_CALLS {
      SettleExhausted(responses, n + 1);
    }
  }

  /** Two retryable failures followed by a success list the card after three
      orders. */
  lemma RetryTwiceThenList(responses: seq<Response>)
    requires |responses| >= MAX_CALLS
    requires Retry(responses[0]) && Retry(responses[1]) && responses[2].success
    ensures Settle(responses, 0) == Settled(Listed, 3)
  {
    SettleDecided(responses, 0, 2);
  }

  /** The retry test ignores case: "Please Refresh The Page" is retried. */
  lemma RetryableIgnoresCase()
    ensures Retryable("Please Refresh The Page")
  {
    var m := Lower("Please Refresh The Page");
    var cond := RETRY_MESSAGE_CONDITIONS[0];
    forall i | 0 <= i < |cond|
      ensures m[7 + i] == cond[i]
    {
    }
    assert m[7..23] == cond;
    assert OccursAt(m, cond, 7);
    ContainsIff(m, cond);
  }

  /** Lower-casing a message first never changes whether it is retried. */
  lemma RetryableCaseInsensitive(message: string)
    ensures Retryable(Lower(message)) == Retryable(message)
  {
    LowerIdempotent(message);
  }

  /** The first `k` attempts, `k` at most MAX_CALLS, all pass the guard. */
  lemma GuardHeld(k: nat)
    requires k <= MAX_CALLS
    ensures forall i :: 0 <= i < k ==> Backoff(i) < SKIP_ITEM_BACKOFF
  {
    forall i | 0 <= i < k
      ensures Backoff(i) < SKIP_ITEM_BACKOFF
    {
      BackoffBelowCap(i);
    }
  }

  /** Sells one card: submits `pennies` for item `id` while the backoff is
      under the cap, and updates the running count of listed cards and the
      running total of expected proceeds. Returns the outcome; the orders it
      submitted and the seconds it slept are logged. */
  method SellCard(id: string, pennies: int, pounds: real, responses: seq<Response>,
                  listedCards: int, totalMoney: real)
    returns (outcome: Outcome, listed: int, total: real, ghost orders: seq<Order>, ghost sleeps: seq<real>)
    requires |responses| >= MAX_CALLS
    ensures Settle(responses, 0) == Settled(outcome, |orders|)
    ensures 1 <= |orders| <= MAX_CALLS
    ensures forall i :: 0 <= i < |orders| ==> orders[i] == Order(id, pennies)
    ensures forall i :: 0 <= i < |orders| ==> Backoff(i) < SKIP_ITEM_BACKOFF
    ensures sleeps == SleepLog(Settled(outcome, |orders|))
    ensures listed == listedCards + (if outcome == Listed then 1 else 0)
    ensures total == totalMoney + (if outcome == Listed then pounds else 0.0)
  {
    var backoff := STARTING_BACKOFF;
    var n: nat := 0;  // index of the oracle's next response
    orders, sleeps := [], [];
    listed, total := listedCards, totalMoney;
    while backoff < SKIP_ITEM_BACKOFF
      invariant n <= MAX_CALLS
      invariant backoff == Backoff(n)
      invariant |orders| == n && sleeps == Backoffs(n)
      invariant forall i :: 0 <= i < n ==> orders[i] == Order(id, pennies)
      invariant Settle(responses, n) == Settle(responses, 0)
      invariant listed == listedCards && total == totalMoney
      decreases MAX_CALLS - n
    {
      BackoffBelowCap(n);
      orders := orders + [Order(id, pennies)];
      var resp := responses[n];
      if resp.success {
        listed := listed + 1;
        total := total + pounds;
        sleeps := sleeps + [STARTING_BACKOFF];
        GuardHeld(n + 1);
        return Listed, listed, total, orders, sleeps;
      } else if Retryable(resp.message) {
        sleeps := sleeps + [backoff];
        backoff := backoff * BACKOFF_MULT;
        n := n + 1;
      } else {
        GuardHeld(n + 1);
        return Errored, listed, total, orders, sleeps;
      }
    }
    BackoffBelowCap(n);
    GuardHeld(n);
    outcome := Skipped;
  }

  /** Number of cards listed. */
  function CountListed(outcomes: seq<Outcome>): (n: nat)
    ensures n <= |outcomes|
    ensures n == 0 <==> Listed !in outcomes
  {
    if outcomes == [] then 0
    else CountListed(outcomes[..|outcomes| - 1]) + (if outcomes[|outcomes| - 1] == Listed then 1 else 0)
  }

  /** Expected proceeds of the listed cards, card `i` quoted at
      `lowestPrices[i]`. */
  function Earned(outcomes: seq<Outcome>, lowestPrices: seq<real>): (r: real)
    requires |outcomes| <= |lowestPrices|
    ensures r >= 0.0
    ensures CountListed(outcomes) == 0 ==> r == 0.0
  {
    if outcomes == [] then 0.0
    else
      var i := |outcomes| - 1;
      Earned(outcomes[..i], lowestPrices) + (if outcomes[i] == Listed then ExpectedProceeds(lowestPrices[i]) else 0.0)
  }

  /** Processing one more card adds one to the count exactly when it is listed,
      and its expected proceeds to the total. */
  lemma CountedStep(outcomes: seq<Outcome>, outcome: Outcome, lowestPrices: seq<real>)
    requires |outcomes| < |lowestPrices|
    ensures CountListed(outcomes + [outcome]) == CountListed(outcomes) + (if outcome == Listed then 1 else 0)
    ensures Earned(outcomes + [outcome], lowestPrices) ==
      Earned(outcomes, lowestPrices) + (if outcome == Listed then ExpectedProceeds(lowestPrices[|outcomes|]) else 0.0)
  {
    assert (outcomes + [outcome])[..|outcomes|] == outcomes;
  }

  /** At most one card is counted per card processed. */
  lemma {:induction false} CountListedBound(outcomes: seq<Outcome>)
    ensures CountListed(outcomes) <= |outcomes|
    ensures CountListed(outcomes) == |outcomes| <==> forall i :: 0 <= i < |outcomes| ==> outcomes[i] == Listed
    decreases |outcomes|
  {
    if outcomes != [] {
      CountListedBound(outcomes[..|outcomes| - 1]);
    }
  }

  /** Every listed card contributes at least the minimum fee to the total. */
  lemma {:induction false} EarnedAtLeastFloor(outcomes: seq<Outcome>, lowestPrices: seq<real>)
    requires |outcomes| <= |lowestPrices|
    ensures Earned(outcomes, lowestPrices) >= MINIMUM_FEE * CountListed(outcomes) as real
    decreases |outcomes|
  {
    if outcomes != [] {
      EarnedAtLeastFloor(outcomes[..|outcomes| - 1], lowestPrices);
    }
  }

  /** What selling one card leaves behind: its outcome and number of orders
      are Settle's on its responses, every order carries the card's id and the
      pennies form derived from its lowest listing, and its sleeps are those of
      how it settled. */
  ghost predicate CardSold(card: Item, lowestPrice: real, responses: seq<Response>,
                           outcome: Outcome, orders: seq<Order>, sleeps: seq<real>)
  {
    |responses| >= MAX_CALLS &&
    Settle(responses, 0) == Settled(outcome, |orders|) &&
    sleeps == SleepLog(Settle(responses, 0)) &&
    forall k :: 0 <= k < |orders| ==> orders[k] == Order(card.id, OrderPennies(lowestPrice))
  }

  /** Selling card `|outcomes|` after the cards before it extends what the
      earlier cards left behind by what this card leaves behind. */
  lemma SoldExtend(cards: seq<Item>, lowestPrices: seq<real>, replies: seq<seq<Response>>,
                   outcomes: seq<Outcome>, orders: seq<seq<Order>>, sleeps: seq<seq<real>>,
                   outcome: Outcome, cardOrders: seq<Order>, cardSleeps: seq<real>)
    requires |outcomes| == |orders| == |sleeps| < |cards| == |lowestPrices| == |replies|
    requires forall j :: 0 <= j < |outcomes| ==>
      CardSold(cards[j], lowestPrices[j], replies[j], outcomes[j], orders[j], sleeps[j])
    requires CardSold(cards[|outcomes|], lowestPrices[|outcomes|], replies[|outcomes|], outcome, cardOrders, cardSleeps)
    ensures forall j :: 0 <= j <= |outcomes| ==>
      CardSold(cards[j], lowestPrices[j], replies[j], (outcomes + [outcome])[j], (orders + [cardOrders])[j], (sleeps + [cardSleeps])[j])
  {
    forall j | 0 <= j <= |outcomes|
      ensures CardSold(cards[j], lowestPrices[j], replies[j], (outcomes + [outcome])[j], (orders + [cardOrders])[j], (sleeps + [cardSleeps])[j])
    {
      if j < |outcomes| {
        assert (outcomes + [outcome])[j] == outcomes[j];
        assert (orders + [cardOrders])[j] == orders[j] && (sleeps + [cardSleeps])[j] == sleeps[j];
      }
    }
  }

  /** Sells the selected cards one after the other, starting from no card
      listed and a zero total. Card `i` is priced from `lowestPrices[i]` and
      answered by `replies[i]`. Returns how many cards were listed, the total
      expected proceeds and each card's outcome; the orders and the sleeps of
      each card are logged. */
  method SellCards(cards: seq<Item>, lowestPrices: seq<real>, replies: seq<seq<Response>>)
    returns (listedCards: int, totalMoney: real, outcomes: seq<Outcome>,
             ghost orders: seq<seq<Order>>, ghost sleeps: seq<seq<real>>)
    requires |lowestPrices| == |cards| && |replies| == |cards|
    requires forall i :: 0 <= i < |replies| ==> |replies[i]| >= MAX_CALLS
    ensures |outcomes| == |cards| && |orders| == |cards| && |sleeps| == |cards|
    ensures forall i :: 0 <= i < |cards| ==>
      CardSold(cards[i], lowestPrices[i], replies[i], outcomes[i], orders[i], sleeps[i])
    ensures listedCards == CountListed(outcomes)
    ensures totalMoney == Earned(outcomes, lowestPrices)
  {
    totalMoney := 0.0;
    listedCards := 0;
    outcomes, orders, sleeps := [], [], [];
    for i := 0 to |cards|
      invariant |outcomes| == i && |orders| == i && |sleeps| == i
      invariant forall j :: 0 <= j < i ==>
        CardSold(cards[j], lowestPrices[j], replies[j], outcomes[j], orders[j], sleeps[j])
      invariant listedCards == CountListed(outcomes)
      invariant totalMoney == Earned(outcomes, lowestPrices)
    {
      var outcome;
      ghost var cardOrders, cardSleeps;
      outcome, listedCards, totalMoney, cardOrders, cardSleeps :=
        SellCard(cards[i].id, OrderPennies(lowestPrices[i]), ExpectedProceeds(lowestPrices[i]),
                 replies[i], listedCards, totalMoney);
      assert CardSold(cards[i], lowestPrices[i], replies[i], outcome, cardOrders, cardSleeps);
      CountedStep(outcomes, outcome, lowestPrices);
      SoldExtend(cards, lowestPrices, replies, outcomes, orders, sleeps, outcome, cardOrders, cardSleeps);
      outcomes, orders, sleeps := outcomes + [outcome], orders + [cardOrders], sleeps + [cardSleeps];
    }
  }
}
