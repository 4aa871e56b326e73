/**
 * The greedy planner of scripts/control-ui-i18n.ts that cuts the pending strings into prompts.
 * A batch holds at most MAX_BATCH_ITEMS strings and, unless it is a single string, stays within
 * the character budget as the planner accounts for it.
 */
module BatchPlanner {

  const MAX_BATCH_ITEMS: nat := 20

  datatype Item = Item(cacheKey: string, key: string, text: string, textHash: string)

  function EstimateBatchChars(items: seq<Item>): nat {
    if items == [] then 2
    else
      var last := items[|items| - 1];
      EstimateBatchChars(items[..|items| - 1]) + |last.key| + |last.text| + 8
  }

  function ItemChars(item: Item): nat {
    EstimateBatchChars([item])
  }

  /** What `currentChars` holds once the strings of a batch have been pushed. */
  function Accounted(batch: seq<Item>): nat {
    if batch == [] then 2 else Accounted(batch[..|batch| - 1]) + ItemChars(batch[|batch| - 1])
  }

  /** The characters of the keys and the texts of a batch. */
  ghost function Payload(batch: seq<Item>): nat {
    if batch == [] then 0 else |batch[0].key| + |batch[0].text| + Payload(batch[1..])
  }

  /**
   * The planner's two limits, stated for one batch: at most twenty strings, and within the budget 2
   * characters for the batch, 10 for each string, and all those of keys and texts.
   */
  ghost predicate Allowed(batch: seq<Item>, budget: real) {
    && 0 < |batch| <= 20
    && (|batch| == 1 || (2 + 10 * |batch| + Payload(batch)) as real <= budget)
  }

  lemma {:induction false} PayloadConcat(a: seq<Item>, b: seq<Item>)
    ensures Payload(a + b) == Payload(a) + Payload(b)
  {
    if a == [] {
      assert a + b == b;
    } else {
      assert (a + b)[1..] == a[1..] + b;
      PayloadConcat(a[1..], b);
    }
  }

  lemma ItemCharsCount(item: Item)
    ensures ItemChars(item) == 10 + |item.key| + |item.text|
  {
    var one := [item];
    assert one[..|one| - 1] == [] && EstimateBatchChars([]) == 2;
    assert EstimateBatchChars(one) == EstimateBatchChars(one[..|one| - 1]) + |item.key| + |item.text| + 8;
  }

  /** What the planner's counter holds. */
  lemma {:induction false} AccountedCounts(batch: seq<Item>)
    ensures Accounted(batch) == 2 + 10 * |batch| + Payload(batch)
  {
    if batch == [] {
    } else {
      var before, last := batch[..|batch| - 1], batch[|batch| - 1];
      AccountedCounts(before);
      ItemCharsCount(last);
      PayloadConcat(before, [last]);
      assert [last][1..] == [];
      assert batch == before + [last];
    }
  }

  function Concat(batches: seq<seq<Item>>): seq<Item> {
    if batches == [] then [] else batches[0] + Concat(batches[1..])
  }

  /** A cut of `items`, in order, into contiguous batches that all obey the limits. */
  ghost predicate IsPlan(batches: seq<seq<Item>>, items: seq<Item>, budget: real) {
    && Concat(batches) == items
    && forall b | b in batches :: Allowed(b, budget)
  }

  /** The test that ends the current batch before `item`. */
  predicate Closes(current: seq<Item>, item: Item, budget: real) {
    || (|current| > 0 && (Accounted(current) + ItemChars(item)) as real > budget)
    || |current| >= MAX_BATCH_ITEMS
  }

  /** What the planner still emits when `current` is open and `rest` is to come. */
  function PlanFrom(current: seq<Item>, rest: seq<Item>, budget: real): seq<seq<Item>>
    decreases |rest|
  {
    if rest == [] then (if current == [] then [] else [current])
    else if Closes(current, rest[0], budget) then [current] + PlanFrom([rest[0]], rest[1..], budget)
    else PlanFrom(current + [rest[0]], rest[1..], budget)
  }

  function Plan(items: seq<Item>, budget: real): seq<seq<Item>> {
    PlanFrom([], items, budget)
  }

  /** The planner keeps every string, in order, and every batch obeys both limits. */
  lemma {:induction false} PlanIsPlan(current: seq<Item>, rest: seq<Item>, budget: real)
    requires current == [] || Allowed(current, budget)
    ensures IsPlan(PlanFrom(current, rest, budget), current + rest, budget)
    decreases |rest|
  {
    if rest == [] {
      assert current + rest == current;
    } else if Closes(current, rest[0], budget) {
      PlanIsPlan([rest[0]], rest[1..], budget);
      assert [rest[0]] + rest[1..] == rest;
    } else {
      var longer := current + [rest[0]];
      assert longer[..|longer| - 1] == current;
      AccountedCounts(longer);
      PlanIsPlan(longer, rest[1..], budget);
      assert longer + rest[1..] == current + rest;
    }
  }

  /** A stretch of an allowed batch is an allowed batch. */
  lemma AllowedStretch(before: seq<Item>, middle: seq<Item>, after: seq<Item>, budget: real)
    requires Allowed(before + middle + after, budget) && middle != []
    ensures Allowed(middle, budget)
  {
    PayloadConcat(before + middle, after);
    PayloadConcat(before, middle);
  }

  /**
   * Greedy stays ahead: a plan that still has to cover everything the planner has to cover, and
   * possibly `behind` strings more, needs at least as many batches.
   */
  lemma {:induction false} GreedyStaysAhead(
      behind: seq<Item>, current: seq<Item>, rest: seq<Item>, budget: real, other: seq<seq<Item>>)
    requires IsPlan(other, behind + current + rest, budget)
    ensures |PlanFrom(current, rest, budget)| <= |other|
    decreases |rest|
  {
    if rest != [] && Closes(current, rest[0], budget) {
      var first, behind' := other[0], behind + current;
      if |first| > |behind'| {
        assert first == (behind + current + rest)[..|first|];
        assert first == behind + (current + [rest[0]]) + first[|behind'| + 1..];
        AccountedCounts(current + [rest[0]]);
        assert (current + [rest[0]])[..|current|] == current;
        AllowedStretch(behind, current + [rest[0]], first[|behind'| + 1..], budget);
        assert false;
      }
      var left := behind'[|first|..];
      assert Concat(other[1..]) == (behind + current + rest)[|first|..];
      assert (behind + current + rest)[|first|..] == left + [rest[0]] + rest[1..];
      GreedyStaysAhead(left, [rest[0]], rest[1..], budget, other[1..]);
    } else if rest != [] {
      assert behind + (current + [rest[0]]) + rest[1..] == behind + current + rest;
      GreedyStaysAhead(behind, current + [rest[0]], rest[1..], budget, other);
    }
  }

  /** No plan that obeys the same limits has fewer batches than the planner's. */
  lemma PlanIsShortest(items: seq<Item>, budget: real, other: seq<seq<Item>>)
    requires IsPlan(other, items, budget)
    ensures |Plan(items, budget)| <= |other|
  {
    assert [] + [] + items == items;
    GreedyStaysAhead([], [], items, budget, other);
  }

  method BuildTranslationBatches(items: seq<Item>, budget: real) returns (batches: seq<seq<Item>>)
    ensures batches == Plan(items, budget)
    ensures IsPlan(batches, items, budget)
    ensures forall other | IsPlan(other, items, budget) :: |batches| <= |other|
  {
    batches := [];
    var current: seq<Item> := [];
    var currentChars := 2;
    for i := 0 to |items|
      invariant currentChars == Accounted(current)
      invariant batches + PlanFrom(current, items[i..], budget) == Plan(items, budget)
    {
      var item := items[i];
      var itemChars := EstimateBatchChars([item]);
      var wouldOverflow := |current| > 0 && (currentChars + itemChars) as real > budget;
      var reachedMaxItems := |current| >= MAX_BATCH_ITEMS;
      assert items[i..][0] == item && items[i..][1..] == items[i + 1..];
      if wouldOverflow || reachedMaxItems {
        batches := batches + [current];
        current := [];
        currentChars := 2;
      }
      current := current + [item];
      currentChars := currentChars + itemChars;
    }
    if |current| > 0 {
      batches := batches + [current];
    }
    PlanIsPlan([], items, budget);
    forall other | IsPlan(other, items, budget) ensures |batches| <= |other| {
      PlanIsShortest(items, budget, other);
    }
  }
}
