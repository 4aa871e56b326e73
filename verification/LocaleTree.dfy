/**
 * Locale maps of scripts/control-ui-i18n.ts: nested objects of strings, their flattened form with
 * dotted keys, and the way back. An object is an association list in property order.
 */
module LocaleTree {
  import opened Prelude

  datatype Tree = Leaf(text: string) | Branch(members: Forest)
  datatype Forest = Empty | Member(key: string, value: Tree, rest: Forest)

  /** An entry of a flattened map. */
  datatype Pair = Pair(key: string, text: string)

  /** flattenTranslations. The source collects into a Map; here the entries are listed in the order in which it sets them. */
  function Flatten(forest: Forest, prefix: string): seq<Pair> {
    match forest
    case Empty => []
    case Member(key, value, rest) =>
      var fullKey := if prefix != "" then prefix + "." + key else key;
      (match value
       case Leaf(text) => [Pair(fullKey, text)]
       case Branch(members) => Flatten(members, fullKey)) + Flatten(rest, prefix)
  }

  function Find(forest: Forest, key: string): Option<Tree> {
    match forest
    case Empty => None
    case Member(k, value, rest) => if k == key then Some(value) else Find(rest, key)
  }

  /** `object[key] = value`: in place when the property exists, otherwise at the end. */
  function Assign(forest: Forest, key: string, value: Tree): Forest {
    match forest
    case Empty => Member(key, value, Empty)
    case Member(k, current, rest) =>
      if k == key then Member(k, value, rest) else Member(k, current, Assign(rest, key, value))
  }

  /** `text.split(".")` */
  function SplitDots(text: string): (parts: seq<string>)
    ensures |parts| > 0
  {
    if text == "" then [""]
    else
      var rest := SplitDots(text[1..]);
      if text[0] == '.' then [""] + rest else [[text[0]] + rest[0]] + rest[1..]
  }

  /** The loop of setNestedValue: it walks or creates objects down to the last part, then assigns. */
  function SetPath(root: Forest, parts: seq<string>, value: string): Forest
    requires |parts| > 0
    decreases |parts|
  {
    if |parts| == 1 then Assign(root, parts[0], Leaf(value))
    else
      var next := Find(root, parts[0]);
      var below := if next.Some? && next.value.Branch? then next.value.members else Empty;
      Assign(root, parts[0], Branch(SetPath(below, parts[1..], value)))
  }

  function SetNestedValue(root: Forest, dottedKey: string, value: string): Forest {
    SetPath(root, SplitDots(dottedKey), value)
  }

  /** The loop of syncLocale that rebuilds a nested map from flat entries. */
  function Rebuild(root: Forest, pairs: seq<Pair>): Forest
    decreases |pairs|
  {
    if pairs == [] then root else Rebuild(SetNestedValue(root, pairs[0].key, pairs[0].text), pairs[1..])
  }

  method RebuildMap(pairs: seq<Pair>) returns (root: Forest)
    ensures root == Rebuild(Empty, pairs)
  {
    root := Empty;
    for i := 0 to |pairs|
      invariant Rebuild(root, pairs[i..]) == Rebuild(Empty, pairs)
    {
      assert pairs[i..][1..] == pairs[i + 1..];
      root := SetNestedValue(root, pairs[i].key, pairs[i].text);
    }
  }

  // ---------------------------------------------------------------- what the trees are like

  predicate GoodKey(key: string) {
    key != "" && '.' !in key
  }

  predicate Has(forest: Forest, key: string) {
    Find(forest, key).Some?
  }

  /** Keys are non-empty and free of dots, and an object has no key twice. */
  ghost predicate GoodKeys(forest: Forest) {
    match forest
    case Empty => true
    case Member(key, value, rest) =>
      && GoodKey(key)
      && !Has(rest, key)
      && GoodKeys(rest)
      && (value.Branch? ==> GoodKeys(value.members))
  }

  /** No object below the root is empty. */
  ghost predicate NoEmptyBranch(forest: Forest) {
    match forest
    case Empty => true
    case Member(_, value, rest) =>
      && NoEmptyBranch(rest)
      && (value.Branch? ==> value.members != Empty && NoEmptyBranch(value.members))
  }

  /** The same tree without its empty objects. */
  function Prune(forest: Forest): Forest {
    match forest
    case Empty => Empty
    case Member(key, value, rest) =>
      match value
      case Leaf(_) => Member(key, value, Prune(rest))
      case Branch(members) =>
        var kept := Prune(members);
        if kept == Empty then Prune(rest) else Member(key, Branch(kept), Prune(rest))
  }

  /** The tree with the text of every leaf replaced by what is chosen for its dotted key. */
  function Translate(forest: Forest, prefix: string, chosen: string -> string): Forest {
    match forest
    case Empty => Empty
    case Member(key, value, rest) =>
      var fullKey := if prefix != "" then prefix + "." + key else key;
      var value' := match value
                    case Leaf(_) => Leaf(chosen(fullKey))
                    case Branch(members) => Branch(Translate(members, fullKey, chosen));
      Member(key, value', Translate(rest, prefix, chosen))
  }

  // ---------------------------------------------------------------- paths instead of dotted keys

  datatype Route = Route(parts: seq<string>, text: string)

  ghost function Routes(forest: Forest, above: seq<string>): seq<Route> {
    match forest
    case Empty => []
    case Member(key, value, rest) =>
      (match value
       case Leaf(text) => [Route(above + [key], text)]
       case Branch(members) => Routes(members, above + [key])) + Routes(rest, above)
  }

  ghost function JoinDots(parts: seq<string>): string
    decreases |parts|
  {
    if |parts| == 0 then ""
    else if |parts| == 1 then parts[0]
    else parts[0] + "." + JoinDots(parts[1..])
  }

  ghost predicate GoodParts(parts: seq<string>) {
    forall i | 0 <= i < |parts| :: GoodKey(parts[i])
  }

  lemma {:induction false} SplitPlain(text: string)
    requires '.' !in text
    ensures SplitDots(text) == [text]
  {
    if text == "" {
    } else {
      SplitPlain(text[1..]);
      assert [text[0]] + text[1..] == text;
    }
  }

  lemma {:induction false} SplitAtDot(text: string, rest: string)
    requires '.' !in text
    ensures SplitDots(text + "." + rest) == [text] + SplitDots(rest)
  {
    if text == "" {
      assert (text + "." + rest)[1..] == rest;
    } else {
      SplitAtDot(text[1..], rest);
      assert [text[0]] + text[1..] == text;
      assert (text + "." + rest)[1..] == text[1..] + "." + rest;
    }
  }

  /** A dotted key splits into the keys it was joined from. */
  lemma {:induction false} SplitJoin(parts: seq<string>)
    requires |parts| > 0 && GoodParts(parts)
    ensures SplitDots(JoinDots(parts)) == parts
    decreases |parts|
  {
    if |parts| == 1 {
      SplitPlain(parts[0]);
    } else {
      SplitJoin(parts[1..]);
      SplitAtDot(parts[0], JoinDots(parts[1..]));
    }
  }

  lemma {:induction false} JoinSnoc(parts: seq<string>, key: string)
    requires |parts| > 0
    ensures JoinDots(parts + [key]) == JoinDots(parts) + "." + key
    decreases |parts|
  {
    if |parts| == 1 {
      assert (parts + [key])[1..] == [key];
    } else {
      JoinSnoc(parts[1..], key);
      assert (parts + [key])[1..] == parts[1..] + [key];
    }
  }

  ghost function Dotted(routes: seq<Route>): seq<Pair> {
    seq(|routes|, i requires 0 <= i < |routes| => Pair(JoinDots(routes[i].parts), routes[i].text))
  }

  lemma {:induction false} FullKey(above: seq<string>, key: string)
    requires GoodParts(above) && GoodKey(key)
    ensures JoinDots(above + [key]) == if JoinDots(above) != "" then JoinDots(above) + "." + key else key
    ensures GoodParts(above + [key])
  {
    if |above| == 0 {
      assert above + [key] == [key];
    } else {
      JoinSnoc(above, key);
      assert JoinDots(above) != "" by {
        if |above| > 1 {
          assert JoinDots(above) == above[0] + "." + JoinDots(above[1..]);
        }
      }
    }
  }

  /** The flattened entries are the routes of the tree with their keys joined. */
  lemma {:induction false} FlattenIsDotted(forest: Forest, above: seq<string>)
    requires GoodKeys(forest) && GoodParts(above)
    ensures Flatten(forest, JoinDots(above)) == Dotted(Routes(forest, above))
  {
    match forest
    case Empty =>
    case Member(key, value, rest) =>
      FullKey(above, key);
      FlattenIsDotted(rest, above);
      if value.Branch? {
        FlattenIsDotted(value.members, above + [key]);
      }
  }

  lemma {:induction false} RoutesAreGood(forest: Forest, above: seq<string>)
    requires GoodKeys(forest) && GoodParts(above)
    ensures forall i | 0 <= i < |Routes(forest, above)| ::
              var parts := Routes(forest, above)[i].parts;
              GoodParts(parts) && |parts| > |above| && above <= parts && Has(forest, parts[|above|])
  {
    match forest
    case Empty =>
    case Member(key, value, rest) =>
      RoutesAreGood(rest, above);
      assert GoodParts(above + [key]);
      if value.Branch? {
        RoutesAreGood(value.members, above + [key]);
        forall i | 0 <= i < |Routes(value.members, above + [key])|
          ensures var parts := Routes(value.members, above + [key])[i].parts;
                  above <= parts && parts[|above|] == key
        {
          assert above + [key] <= Routes(value.members, above + [key])[i].parts;
        }
      }
  }

  ghost predicate PrefixFree(routes: seq<Route>) {
    forall i, j | 0 <= i < |routes| && 0 <= j < |routes| && i != j :: !(routes[i].parts <= routes[j].parts)
  }

  /** Routes that part at position n from prefix-free others. */
  lemma ApartIsPrefixFree(here: seq<Route>, later: seq<Route>, n: nat, key: string)
    requires PrefixFree(here) && PrefixFree(later)
    requires forall i | 0 <= i < |here| :: |here[i].parts| > n && here[i].parts[n] == key
    requires forall j | 0 <= j < |later| :: |later[j].parts| > n && later[j].parts[n] != key
    ensures PrefixFree(here + later)
  {
    var all := here + later;
    forall i, j | 0 <= i < |all| && 0 <= j < |all| && i != j ensures !(all[i].parts <= all[j].parts) {
      assert all[i] == if i < |here| then here[i] else later[i - |here|];
      assert all[j] == if j < |here| then here[j] else later[j - |here|];
    }
  }

  /**
   * No flattened key is a stretch of another's path: setNestedValue never puts a string where an
   * object belongs or an object where a string belongs.
   */
  lemma {:induction false} FlattenedKeysArePrefixFree(forest: Forest, above: seq<string>)
    requires GoodKeys(forest) && GoodParts(above)
    ensures PrefixFree(Routes(forest, above))
  {
    match forest
    case Empty =>
    case Member(key, value, rest) =>
      var here := match value case Leaf(text) => [Route(above + [key], text)]
                              case Branch(members) => Routes(members, above + [key]);
      var later := Routes(rest, above);
      FlattenedKeysArePrefixFree(rest, above);
      RoutesAreGood(rest, above);
      assert GoodParts(above + [key]);
      if value.Branch? {
        FlattenedKeysArePrefixFree(value.members, above + [key]);
        RoutesAreGood(value.members, above + [key]);
      }
      forall i | 0 <= i < |here| ensures |here[i].parts| > |above| && here[i].parts[|above|] == key {
        if value.Branch? {
          assert above + [key] <= here[i].parts;
        }
      }
      forall j | 0 <= j < |later| ensures |later[j].parts| > |above| && later[j].parts[|above|] != key {
      }
      ApartIsPrefixFree(here, later, |above|, key);
  }

  /** A flattened map has no key twice, so that as a Map it has exactly the listed entries. */
  lemma FlattenedKeysAreDistinct(forest: Forest)
    requires GoodKeys(forest)
    ensures forall i, j | 0 <= i < j < |Flatten(forest, "")| :: Flatten(forest, "")[i].key != Flatten(forest, "")[j].key
  {
    var routes := Routes(forest, []);
    FlattenIsDotted(forest, []);
    FlattenedKeysArePrefixFree(forest, []);
    RoutesAreGood(forest, []);
    forall i, j | 0 <= i < j < |routes| ensures JoinDots(routes[i].parts) != JoinDots(routes[j].parts) {
      SplitJoin(routes[i].parts);
      SplitJoin(routes[j].parts);
      assert !(routes[i].parts <= routes[j].parts);
    }
  }

  // ---------------------------------------------------------------- there and back

  ghost function Follow(root: Forest, routes: seq<Route>): Forest
    requires forall i | 0 <= i < |routes| :: |routes[i].parts| > 0
    decreases |routes|
  {
    if routes == [] then root else Follow(SetPath(root, routes[0].parts, routes[0].text), routes[1..])
  }

  lemma {:induction false} FollowConcat(root: Forest, a: seq<Route>, b: seq<Route>)
    requires forall i | 0 <= i < |a| :: |a[i].parts| > 0
    requires forall i | 0 <= i < |b| :: |b[i].parts| > 0
    ensures Follow(root, a + b) == Follow(Follow(root, a), b)
    decreases |a|
  {
    if a == [] {
      assert a + b == b;
    } else {
      FollowConcat(SetPath(root, a[0].parts, a[0].text), a[1..], b);
      assert (a + b)[1..] == a[1..] + b;
    }
  }

  lemma {:induction false} RebuildFollows(root: Forest, routes: seq<Route>)
    requires forall i | 0 <= i < |routes| :: |routes[i].parts| > 0 && GoodParts(routes[i].parts)
    ensures Rebuild(root, Dotted(routes)) == Follow(root, routes)
    decreases |routes|
  {
    if routes == [] {
    } else {
      SplitJoin(routes[0].parts);
      RebuildFollows(SetPath(root, routes[0].parts, routes[0].text), routes[1..]);
      assert Dotted(routes)[1..] == Dotted(routes[1..]);
    }
  }

  ghost function Append(a: Forest, b: Forest): Forest {
    match a
    case Empty => b
    case Member(key, value, rest) => Member(key, value, Append(rest, b))
  }

  lemma {:induction false} AppendAssociative(a: Forest, b: Forest, c: Forest)
    ensures Append(Append(a, b), c) == Append(a, Append(b, c))
  {
    if a.Empty? {
    } else {
      AppendAssociative(a.rest, b, c);
    }
  }

  lemma {:induction false} AppendEmpty(a: Forest)
    ensures Append(a, Empty) == a
  {
    if a.Empty? {
    } else {
      AppendEmpty(a.rest);
    }
  }

  /** Looking up or assigning a key that `a` does not have happens in what is appended to it. */
  lemma {:induction false} AppendLookup(a: Forest, b: Forest, key: string, value: Tree)
    ensures Find(Append(a, b), key) == if Has(a, key) then Find(a, key) else Find(b, key)
    ensures !Has(a, key) ==> Assign(Append(a, b), key, value) == Append(a, Assign(b, key, value))
  {
    if a.Empty? {
    } else {
      AppendLookup(a.rest, b, key, value);
    }
  }

  /** The routes that share their first key are built inside one object. */
  lemma {:induction false} FollowInside(before: Forest, key: string, members: Forest, routes: seq<Route>, inner: seq<Route>)
    requires !Has(before, key)
    requires |routes| == |inner|
    requires forall i | 0 <= i < |inner| :: |inner[i].parts| > 0
    requires forall i | 0 <= i < |inner| :: routes[i] == Route([key] + inner[i].parts, inner[i].text)
    ensures Follow(Append(before, Member(key, Branch(members), Empty)), routes)
         == Append(before, Member(key, Branch(Follow(members, inner)), Empty))
    decreases |routes|
  {
    if routes == [] {
    } else {
      var forest := Append(before, Member(key, Branch(members), Empty));
      var members' := SetPath(members, inner[0].parts, inner[0].text);
      AppendLookup(before, Member(key, Branch(members), Empty), key, Branch(members'));
      assert routes[0].parts[1..] == inner[0].parts;
      FollowInside(before, key, members', routes[1..], inner[1..]);
    }
  }

  /** Dropping a first key common to all routes of an object. */
  lemma {:induction false} RoutesBelow(forest: Forest, key: string, above: seq<string>)
    ensures |Routes(forest, [key] + above)| == |Routes(forest, above)|
    ensures forall i | 0 <= i < |Routes(forest, above)| ::
              Routes(forest, [key] + above)[i] == Route([key] + Routes(forest, above)[i].parts, Routes(forest, above)[i].text)
  {
    match forest
    case Empty =>
    case Member(k, value, rest) =>
      RoutesBelow(rest, key, above);
      assert [key] + above + [k] == [key] + (above + [k]);
      if value.Branch? {
        RoutesBelow(value.members, key, above + [k]);
      }
  }

  lemma {:induction false} RoutesExist(forest: Forest, above: seq<string>)
    requires NoEmptyBranch(forest) && forest != Empty
    ensures Routes(forest, above) != []
  {
    if forest.value.Branch? {
      RoutesExist(forest.value.members, above + [forest.key]);
    }
  }

  /** Setting the routes of a tree one after another builds the tree behind what is already there. */
  lemma {:induction false} FollowBuilds(before: Forest, forest: Forest)
    requires GoodKeys(forest) && NoEmptyBranch(forest)
    requires forall key | Has(forest, key) :: !Has(before, key)
    requires forall i | 0 <= i < |Routes(forest, [])| :: |Routes(forest, [])[i].parts| > 0
    ensures Follow(before, Routes(forest, [])) == Append(before, forest)
    decreases forest
  {
    match forest
    case Empty => AppendEmpty(before);
    case Member(key, value, rest) =>
      assert Has(forest, key);
      RoutesAreGood(rest, []);
      var one := Member(key, value, Empty);
      var here := match value case Leaf(text) => [Route([key], text)] case Branch(members) => Routes(members, [key]);
      assert [] + [key] == [key];
      AppendEmpty(before);
      FollowMember(before, key, value);
      FollowConcat(before, here, Routes(rest, []));
      forall k | Has(rest, k) ensures !Has(Append(before, one), k) {
        assert Has(forest, k);
        AppendLookup(before, one, k, value);
      }
      FollowBuilds(Append(before, one), rest);
      AppendAssociative(before, one, rest);
  }

  lemma {:induction false} FollowMember(before: Forest, key: string, value: Tree)
    requires GoodKey(key) && !Has(before, key)
    requires value.Branch? ==> GoodKeys(value.members) && NoEmptyBranch(value.members) && value.members != Empty
    ensures var here := match value case Leaf(text) => [Route([key], text)] case Branch(members) => Routes(members, [key]);
            && (forall i | 0 <= i < |here| :: |here[i].parts| > 0)
            && Follow(before, here) == Append(before, Member(key, value, Empty))
    decreases value
  {
    AppendEmpty(before);
    match value
    case Leaf(text) =>
      AppendLookup(before, Empty, key, value);
      var here := [Route([key], text)];
      assert here[1..] == [];
    case Branch(members) =>
      var inner, routes := Routes(members, []), Routes(members, [key]);
      RoutesAreGood(members, []);
      RoutesBelow(members, key, []);
      assert [key] + [] == [key];
      RoutesExist(members, []);
      var first := SetPath(Empty, inner[0].parts, inner[0].text);
      AppendLookup(before, Empty, key, Branch(first));
      assert routes[0].parts[1..] == inner[0].parts;
      assert SetPath(before, routes[0].parts, routes[0].text) == Append(before, Member(key, Branch(first), Empty));
      FollowInside(before, key, first, routes[1..], inner[1..]);
      FollowBuilds(Empty, members);
  }

  lemma {:induction false} PruneKeepsFull(forest: Forest)
    requires NoEmptyBranch(forest)
    ensures Prune(forest) == forest
  {
    if forest.Empty? {
    } else {
      PruneKeepsFull(forest.rest);
      if forest.value.Branch? {
        PruneKeepsFull(forest.value.members);
      }
    }
  }

  lemma {:induction false} PruneKeepsFlatten(forest: Forest, prefix: string)
    ensures Flatten(Prune(forest), prefix) == Flatten(forest, prefix)
  {
    match forest
    case Empty =>
    case Member(key, value, rest) =>
      var fullKey := if prefix != "" then prefix + "." + key else key;
      PruneKeepsFlatten(rest, prefix);
      if value.Branch? {
        PruneKeepsFlatten(value.members, fullKey);
      }
  }

  lemma {:induction false} PruneIsGood(forest: Forest)
    requires GoodKeys(forest)
    ensures GoodKeys(Prune(forest)) && NoEmptyBranch(Prune(forest))
    ensures forall key | Has(Prune(forest), key) :: Has(forest, key)
  {
    if forest.Empty? {
    } else {
      PruneIsGood(forest.rest);
      if forest.value.Branch? {
        PruneIsGood(forest.value.members);
      }
      forall key | Has(Prune(forest), key) && key != forest.key ensures Has(forest, key) {
        assert Has(Prune(forest.rest), key);
      }
    }
  }

  /** Flattening a tree and rebuilding it gives the tree back, except for its empty objects. */
  lemma RebuildFlatten(forest: Forest)
    requires GoodKeys(forest)
    ensures Rebuild(Empty, Flatten(forest, "")) == Prune(forest)
    ensures NoEmptyBranch(forest) ==> Rebuild(Empty, Flatten(forest, "")) == forest
  {
    var kept := Prune(forest);
    PruneKeepsFlatten(forest, "");
    PruneIsGood(forest);
    FlattenIsDotted(kept, []);
    RoutesAreGood(kept, []);
    RebuildFollows(Empty, Routes(kept, []));
    FollowBuilds(Empty, kept);
    if NoEmptyBranch(forest) {
      PruneKeepsFull(forest);
    }
  }

  ghost function Chosen(pairs: seq<Pair>, chosen: string -> string): seq<Pair> {
    seq(|pairs|, i requires 0 <= i < |pairs| => Pair(pairs[i].key, chosen(pairs[i].key)))
  }

  lemma ChosenConcat(a: seq<Pair>, b: seq<Pair>, chosen: string -> string)
    ensures Chosen(a + b, chosen) == Chosen(a, chosen) + Chosen(b, chosen)
  {
  }

  lemma {:induction false} FlattenTranslate(forest: Forest, prefix: string, chosen: string -> string)
    ensures Flatten(Translate(forest, prefix, chosen), prefix) == Chosen(Flatten(forest, prefix), chosen)
  {
    match forest
    case Empty =>
    case Member(key, value, rest) =>
      var fullKey := if prefix != "" then prefix + "." + key else key;
      FlattenTranslate(rest, prefix, chosen);
      if value.Branch? {
        FlattenTranslate(value.members, fullKey, chosen);
        ChosenConcat(Flatten(value.members, fullKey), Flatten(rest, prefix), chosen);
      } else {
        ChosenConcat([Pair(fullKey, value.text)], Flatten(rest, prefix), chosen);
        assert Chosen([Pair(fullKey, value.text)], chosen) == [Pair(fullKey, chosen(fullKey))];
      }
  }

  lemma {:induction false} TranslateIsGood(forest: Forest, prefix: string, chosen: string -> string)
    requires GoodKeys(forest)
    ensures GoodKeys(Translate(forest, prefix, chosen))
    ensures forall key :: Has(Translate(forest, prefix, chosen), key) <==> Has(forest, key)
  {
    if forest.Empty? {
    } else {
      var fullKey := if prefix != "" then prefix + "." + forest.key else forest.key;
      TranslateIsGood(forest.rest, prefix, chosen);
      if forest.value.Branch? {
        TranslateIsGood(forest.value.members, fullKey, chosen);
      }
      forall key ensures Has(Translate(forest, prefix, chosen), key) <==> Has(forest, key) {
        assert Has(Translate(forest.rest, prefix, chosen), key) <==> Has(forest.rest, key);
      }
    }
  }

  /**
   * Rebuilding from the source keys with a chosen text for each gives the source tree with those
   * texts, and flattening the result gives exactly the chosen text for every source key.
   */
  lemma RebuildChosen(source: Forest, chosen: string -> string)
    requires GoodKeys(source)
    ensures var rebuilt := Rebuild(Empty, Chosen(Flatten(source, ""), chosen));
            && rebuilt == Prune(Translate(source, "", chosen))
            && Flatten(rebuilt, "") == Chosen(Flatten(source, ""), chosen)
  {
    FlattenTranslate(source, "", chosen);
    TranslateIsGood(source, "", chosen);
    RebuildFlatten(Translate(source, "", chosen));
    PruneKeepsFlatten(Translate(source, "", chosen), "");
  }
}
