/** The product and tip catalogues (script.js:222-416, 485-597): the
    category filter over the product cards, key lookup for the two detail
    modals, and the mineral label shown in the product modal. */
module Catalog {
  import opened Seqs
  import Text

  /** The keys of the product table (script.js:264-373). */
  const ProductKeys: set<string> :=
    {"still-500ml", "still-1l", "sparkling-330ml", "lemon-500ml", "glass-750ml", "sparkling-750ml"}

  /** The keys of the tip table (script.js:491-583). */
  const TipKeys: set<string> := {"cocktail", "cooking", "beauty"}

  /** The filter value that shows every card. */
  const ShowAll := "all"

  /** Whether a card of the given category is shown under the filter. */
  predicate ShowCard(filter: string, category: string)
  {
    filter == ShowAll || category == filter
  }

  /** The cards' final visibility once a filter button is clicked. */
  function FilterFlags(filter: string, categories: seq<string>): (shown: seq<bool>)
    ensures |shown| == |categories|
  {
    seq(|categories|, i requires 0 <= i < |categories| => ShowCard(filter, categories[i]))
  }

  /** The filter "all" shows every card. */
  lemma ShowAllShowsEvery(categories: seq<string>)
    ensures forall i :: 0 <= i < |categories| ==> FilterFlags(ShowAll, categories)[i]
    ensures CountTrue(FilterFlags(ShowAll, categories)) == |categories|
  {
    CountMatching(ShowAll, categories);
  }

  /** Any other filter shows exactly the cards of its category, so as many
      cards as carry that category. */
  lemma FilterShowsCategory(filter: string, categories: seq<string>)
    requires filter != ShowAll
    ensures forall i :: 0 <= i < |categories| ==> (FilterFlags(filter, categories)[i] <==> categories[i] == filter)
    ensures CountTrue(FilterFlags(filter, categories)) == multiset(categories)[filter]
  {
    CountMatching(filter, categories);
  }

  lemma {:induction false} CountMatching(filter: string, categories: seq<string>)
    ensures CountTrue(FilterFlags(filter, categories)) ==
            if filter == ShowAll then |categories| else multiset(categories)[filter]
  {
    if categories != [] {
      var p := categories[..|categories| - 1];
      var last := categories[|categories| - 1];
      assert categories == p + [last];
      assert FilterFlags(filter, categories)[..|categories| - 1] == FilterFlags(filter, p);
      CountMatching(filter, p);
    }
  }

  /** The click handler of one filter button: clear every button and mark the
      clicked one, then show the cards the filter selects and hide the rest.
      Card visibility is the state the cards settle in once the fade timers
      have run. */
  method ApplyFilter(clicked: int, filter: string, buttonActive: array<bool>,
                     categories: seq<string>, cardShown: array<bool>)
    requires 0 <= clicked < buttonActive.Length
    requires cardShown.Length == |categories| && buttonActive != cardShown
    modifies buttonActive, cardShown
    ensures OnlyAt(buttonActive[..], clicked)
    ensures cardShown[..] == FilterFlags(filter, categories)
  {
    var i := 0;
    while i < buttonActive.Length
      invariant 0 <= i <= buttonActive.Length
      invariant forall j :: 0 <= j < i ==> !buttonActive[j]
    {
      buttonActive[i] := false;
      i := i + 1;
    }
    buttonActive[clicked] := true;
    var c := 0;
    while c < cardShown.Length
      invariant 0 <= c <= cardShown.Length
      invariant OnlyAt(buttonActive[..], clicked)
      invariant forall j :: 0 <= j < c ==> cardShown[j] == ShowCard(filter, categories[j])
    {
      cardShown[c] := ShowCard(filter, categories[c]);
      c := c + 1;
    }
  }

  /** The names every plain object inherits from Object.prototype; a bracket
      lookup `table[key]` with one of them yields a function or an object,
      both of which are truthy. */
  const InheritedNames: set<string> :=
    {"constructor", "__proto__", "hasOwnProperty", "isPrototypeOf", "propertyIsEnumerable",
     "toString", "toLocaleString", "valueOf", "__defineGetter__", "__defineSetter__",
     "__lookupGetter__", "__lookupSetter__"}

  /** What `table[key]` finds in an object literal with the given own keys. */
  datatype Lookup = Own | Inherited | Missing

  function BracketLookup(keys: set<string>, key: string): (r: Lookup)
    ensures r == Own <==> key in keys
    ensures r == Missing <==> key !in keys && key !in InheritedNames
  {
    if key in keys then Own else if key in InheritedNames then Inherited else Missing
  }

  /** How a call of a modal-open function ends. */
  datatype Opened = NoOp | Shown | TypeError

  /** openProductModal as written: the `if (!product) return` guard lets an
      inherited name through, and the template then calls `.map` on the
      missing feature list. */
  function OpenProductAsWritten(key: string): (r: Opened)
    ensures r == Shown <==> key in ProductKeys
    ensures r == TypeError <==> key !in ProductKeys && key in InheritedNames
    ensures r == NoOp <==> key !in ProductKeys && key !in InheritedNames
  {
    match BracketLookup(ProductKeys, key)
    case Own => Shown
    case Inherited => TypeError
    case Missing => NoOp
  }

  /** showTipDetail as written: an inherited name passes the guard and the
      modal is shown with "undefined" for its title and content. */
  function ShowTipAsWritten(key: string): (r: Opened)
    ensures r != TypeError
    ensures r == Shown <==> key in TipKeys || key in InheritedNames
  {
    match BracketLookup(TipKeys, key)
    case Own => Shown
    case Inherited => Shown
    case Missing => NoOp
  }

  /** The unknown key "toString" is not ignored: the product modal throws
      and the tip modal opens. */
  lemma InheritedNameIsNotIgnored()
    ensures "toString" !in ProductKeys && OpenProductAsWritten("toString") == TypeError
    ensures "toString" !in TipKeys && ShowTipAsWritten("toString") == Shown
  {
  }

  /** The intended lookup: only the table's own keys open the modal; every
      other key is a silent no-op. */
  function OpenByOwnKey(keys: set<string>, key: string): (r: Opened)
    ensures r == Shown <==> key in keys
    ensures r != TypeError
  {
    if key in keys then Shown else NoOp
  }

  /** The intended lookup agrees with the written one on every key except
      the inherited names. */
  lemma OwnKeyAgreesOffInherited(key: string)
    requires key !in InheritedNames
    ensures OpenByOwnKey(ProductKeys, key) == OpenProductAsWritten(key)
    ensures OpenByOwnKey(TipKeys, key) == ShowTipAsWritten(key)
  {
  }

  /** The mineral label: the first '_' of the key becomes a space and the
      result is upper-cased. */
  function MineralLabel(key: string): (shown: string)
    ensures |shown| == |key|
  {
    Text.ReplaceFirstSpec(key, '_', ' ');
    Text.ToUpperAscii(Text.ReplaceFirst(key, '_', ' '))
  }

  lemma VitaminReplaced()
    ensures Text.ReplaceFirst("vitamin_c", '_', ' ') == "vitamin c"
  {
  }

  lemma VitaminUpper()
    ensures Text.ToUpperAscii("vitamin c") == "VITAMIN C"
  {
  }

  /** The one catalogue key with an underscore gets a space in its place. */
  lemma VitaminLabel()
    ensures MineralLabel("vitamin_c") == "VITAMIN C"
  {
    VitaminReplaced();
    VitaminUpper();
  }

  lemma TwoUnderscoresReplaced()
    ensures Text.ReplaceFirst("a_b_c", '_', ' ') == "a b_c"
  {
  }

  lemma TwoUnderscoresUpper()
    ensures Text.ToUpperAscii("a b_c") == "A B_C"
  {
  }

  /** Only the first underscore becomes a space: a key with two keeps its
      second one. */
  lemma SecondUnderscoreKept()
    ensures MineralLabel("a_b_c") == "A B_C"
  {
    TwoUnderscoresReplaced();
    TwoUnderscoresUpper();
  }

  /** Each label keeps one underscore fewer than its key, when the key has
      one. */
  lemma MineralLabelDropsOneUnderscore(key: string)
    requires '_' in key
    ensures multiset(MineralLabel(key))['_'] == multiset(key)['_'] - 1
  {
    var r := Text.ReplaceFirst(key, '_', ' ');
    Text.ReplaceFirstRemovesOne(key, '_', ' ');
    UpperKeepsUnderscores(r);
  }

  lemma {:induction false} UpperKeepsUnderscores(s: string)
    ensures multiset(Text.ToUpperAscii(s))['_'] == multiset(s)['_']
  {
    if s != [] {
      UpperKeepsUnderscores(s[1..]);
      var c, rest := Text.UpperAscii(s[0]), Text.ToUpperAscii(s[1..]);
      assert (c == '_') == (s[0] == '_');
      assert s == [s[0]] + s[1..];
      assert multiset(s) == multiset{s[0]} + multiset(s[1..]);
      assert Text.ToUpperAscii(s) == [c] + rest;
      assert multiset([c] + rest) == multiset{c} + multiset(rest);
    }
  }
}
