/**
  The plugins excluded from the configuration page: the list of boxes (`jeedom2ha_excluded_plugins.php`) and the text
  written from the boxes ticked (`j2haComputeExcludedPlugins` of `plugin_info/configuration.php`).
 */
module ExcludedPlugins {
  import opened Prelude
  import opened Text
  import opened CsvTokens

  const SELF := "jeedom2ha"
  const ZERO := "0"

  /** `jeedom2ha_excluded_plugin_ids`: `array_filter` leaves out the empty text, and "0" with it. */
  function PluginIds(csv: string): seq<string> {
    Filter(Unique(TrimAll(Split(csv, COMMA))), (t: string) => t != "" && t != ZERO)
  }

  lemma PluginIdsMeaning(csv: string, id: string)
    ensures id in PluginIds(csv) <==> id in Tokens(csv) && id != ZERO
  {
    hide Split, Trim;
    var trimmed := TrimAll(Split(csv, COMMA));
    FilterMembers(Unique(trimmed), (t: string) => t != "" && t != ZERO, id);
    UniqueMeaning(trimmed, id);
    FilterMembers(trimmed, (t: string) => t != "", id);
  }

  // ---------------------------------------------------------------------------------------
  // The boxes of the page
  // ---------------------------------------------------------------------------------------

  datatype Item = Item(id: string, name: string, checked: bool, absent: bool)

  /** By folded name, then by id; `fold` is `jeedom2ha_fold_text`. */
  predicate Comes(a: Item, b: Item, fold: string -> string) {
    if fold(a.name) != fold(b.name) then Less(fold(a.name), fold(b.name)) else Less(a.id, b.id)
  }

  lemma ShownNameMeaning(id: string, name: string)
    ensures Trim(name, IsSpace) == "" ==> ShownName(id, name) == id
    ensures Trim(name, IsSpace) != "" ==> ShownName(id, name) == Trim(name, IsSpace)
  {
  }

  lemma ComesMeaning(a: Item, b: Item, fold: string -> string)
    ensures fold(a.name) != fold(b.name) ==> (Comes(a, b, fold) <==> exists k :: PartsAt(fold(a.name), fold(b.name), k))
    ensures fold(a.name) == fold(b.name) ==> (Comes(a, b, fold) <==> exists k :: PartsAt(a.id, b.id, k))
  {
    LessMeaning(fold(a.name), fold(b.name));
    LessMeaning(a.id, b.id);
  }

  predicate InOrder(items: seq<Item>, fold: string -> string) {
    forall i, j :: 0 <= i < j < |items| && !items[i].absent && !items[j].absent ==> !Comes(items[j], items[i], fold)
  }

  /** `usort` keeps the items it is given and puts them in order. */
  ghost predicate IsSort(sort: seq<Item> -> seq<Item>, fold: string -> string) {
    forall items :: multiset(sort(items)) == multiset(items) && InOrder(sort(items), fold)
  }

  ghost predicate HasItem(items: seq<Item>, id: string) { exists i :: 0 <= i < |items| && items[i].id == id }

  predicate IsPresent(names: map<string, string>, id: string) { id in names && id != "" && id != SELF }

  /** The name shown, the id when there is none. */
  function ShownName(id: string, name: string): string { if Trim(name, IsSpace) != "" then Trim(name, IsSpace) else id }

  /** An item of the page is a plugin of Jeedom, ticked when excluded, or an excluded one that Jeedom has no more. */
  predicate IsItem(x: Item, names: map<string, string>, excluded: seq<string>) {
    if x.absent then x.checked && x.name == x.id && x.id in excluded && x.id != SELF && !IsPresent(names, x.id)
    else IsPresent(names, x.id) && x.name == ShownName(x.id, names[x.id]) && x.checked == (x.id in excluded)
  }

  /** `jeedom2ha_build_excluded_plugins_list`; `listed` gives the plugins in Jeedom's order. */
  method BuildList(listed: seq<string>, names: map<string, string>, csv: string, sort: seq<Item> -> seq<Item>,
      ghost fold: string -> string)
    returns (items: seq<Item>)
    requires IsSort(sort, fold) && forall id :: id in names <==> id in listed
    ensures forall i :: 0 <= i < |items| ==> IsItem(items[i], names, PluginIds(csv))
    ensures forall id :: HasItem(items, id) <==> id != SELF && (IsPresent(names, id) || id in PluginIds(csv))
    ensures InOrder(items, fold) && forall i, j :: 0 <= i < j < |items| && items[i].absent ==> items[j].absent
  {
    hide PluginIds, HasItem, Comes;
    var excluded := PluginIds(csv);
    items := [];
    NoItem();
    for i := 0 to |listed|
      invariant forall k :: 0 <= k < |items| ==> IsItem(items[k], names, excluded) && !items[k].absent
      invariant forall id :: HasItem(items, id) <==> IsPresent(names, id) && id in listed[..i]
    {
      var id := listed[i];
      assert listed[..i+1] == listed[..i] + [id];
      if id == "" || id == SELF {
        continue;
      }
      assert id in names;
      var item := Item(id, ShownName(id, names[id]), id in excluded, false);
      ItemAdded(items, item);
      items := items + [item];
    }
    assert listed[..|listed|] == listed;
    SortKeeps(sort, fold, items, names, excluded);
    items := sort(items);
    for i := 0 to |excluded|
      invariant forall k :: 0 <= k < |items| ==> IsItem(items[k], names, excluded)
      invariant forall id :: HasItem(items, id) <==> IsPresent(names, id) || (id != SELF && id in excluded[..i])
      invariant InOrder(items, fold) && forall j, k :: 0 <= j < k < |items| && items[j].absent ==> items[k].absent
    {
      var id := excluded[i];
      assert excluded[..i+1] == excluded[..i] + [id];
      if id == SELF || IsShown(items, id) {
        continue;
      }
      ItemAdded(items, Item(id, id, true, true));
      items := items + [Item(id, id, true, true)];
    }
    assert excluded[..|excluded|] == excluded;
  }

  predicate IsShown(items: seq<Item>, id: string)
    ensures IsShown(items, id) <==> HasItem(items, id)
  {
    exists i :: 0 <= i < |items| && items[i].id == id
  }

  lemma NoItem()
    ensures forall id :: !HasItem([], id)
  {
  }

  lemma ItemAdded(items: seq<Item>, x: Item)
    ensures forall id :: HasItem(items + [x], id) <==> HasItem(items, id) || id == x.id
  {
    assert (items + [x])[|items|] == x;
    forall id ensures HasItem(items + [x], id) <==> HasItem(items, id) || id == x.id {
      if HasItem(items, id) {
        var i :| 0 <= i < |items| && items[i].id == id;
        assert (items + [x])[i].id == id;
      }
    }
  }

  lemma SortKeeps(sort: seq<Item> -> seq<Item>, fold: string -> string, items: seq<Item>, names: map<string, string>,
      excluded: seq<string>)
    requires IsSort(sort, fold) && forall k :: 0 <= k < |items| ==>
      IsItem(items[k], names, excluded) && !items[k].absent
    ensures forall k :: 0 <= k < |sort(items)| ==> IsItem(sort(items)[k], names, excluded) && !sort(items)[k].absent
    ensures forall id :: HasItem(sort(items), id) <==> HasItem(items, id)
  {
    var sorted := sort(items);
    SameMembers(items, sorted);
    forall k | 0 <= k < |sorted| ensures IsItem(sorted[k], names, excluded) && !sorted[k].absent {
      assert sorted[k] in items;
    }
    forall id ensures HasItem(sorted, id) <==> HasItem(items, id) {
      if HasItem(sorted, id) {
        var i :| 0 <= i < |sorted| && sorted[i].id == id;
        assert sorted[i] in items;
      }
      if HasItem(items, id) {
        var i :| 0 <= i < |items| && items[i].id == id;
        assert items[i] in sorted;
      }
    }
  }

  // ---------------------------------------------------------------------------------------
  // What is written
  // ---------------------------------------------------------------------------------------

  /** The ids newly ticked, each once, after those that are kept. */
  function WithTicked(kept: seq<string>, before: seq<string>, ticked: seq<string>): seq<string> {
    if ticked == [] then kept
    else
      var so, last := WithTicked(kept, before, ticked[..|ticked|-1]), ticked[|ticked|-1];
      if last !in before && last !in so then so + [last] else so
  }

  function WrittenTokens(tokens: seq<string>, before: seq<string>, after: seq<string>): seq<string> {
    WithTicked(Filter(tokens, (t: string) => t !in before || t in after), before, after)
  }

  /** JavaScript's sort of a list of texts: its result depends on what the list holds, not on its order. */
  ghost predicate IsTextSort(sort: seq<string> -> seq<string>) {
    && (forall s :: multiset(sort(s)) == multiset(s))
    && (forall s, t :: multiset(s) == multiset(t) ==> sort(s) == sort(t))
  }

  /** Two lists of boxes are compared as one text, line by line. */
  predicate SameBoxes(before: seq<string>, after: seq<string>, sort: seq<string> -> seq<string>) {
    Join(sort(before), "\n") == Join(sort(after), "\n")
  }

  predicate IsLine(t: string) { t != "" && '\n' !in t }

  /** The comparison is that of what the lists hold when every id is a line of its own. */
  lemma SameBoxesExactlyWhen(before: seq<string>, after: seq<string>, sort: seq<string> -> seq<string>)
    requires IsTextSort(sort) && forall t :: t in before || t in after ==> IsLine(t)
    ensures SameBoxes(before, after, sort) <==> multiset(before) == multiset(after)
  {
    hide Join;
    var a, b := sort(before), sort(after);
    SameMembers(before, a);
    SameMembers(after, b);
    LinesOfJoin(a);
    LinesOfJoin(b);
  }

  lemma LinesOfJoin(lines: seq<string>)
    requires forall i :: 0 <= i < |lines| ==> IsLine(lines[i])
    ensures lines == if Join(lines, "\n") == "" then [] else Split(Join(lines, "\n"), '\n')
  {
    if lines != [] {
      SplitJoin(lines, '\n');
      assert Join(lines, "\n") != "";
    }
  }

  /**
    `j2haComputeExcludedPlugins`, from the boxes ticked at first and those ticked now.  The text written is read back
    token by token exactly when every id newly ticked is a token: one with a comma or outer blanks is not.
   */
  method ComputeExcludedPlugins(csv: string, before: seq<string>, after: seq<string>, sort: seq<string> -> seq<string>)
    returns (r: string)
    ensures SameBoxes(before, after, sort) ==> r == csv
    ensures !SameBoxes(before, after, sort) ==>
      && r == Join(WrittenTokens(Tokens(csv), before, after), [COMMA])
      && (Tokens(r) == WrittenTokens(Tokens(csv), before, after) <==>
         forall t :: t in after && t !in before ==> IsToken(t))
  {
    if SameBoxes(before, after, sort) {
      return csv;
    }
    hide SameBoxes, Tokens, IsToken, Join;
    var kept := Filter(Tokens(csv), (t: string) => t !in before || t in after);
    ghost var first := kept;
    for i := 0 to |after|
      invariant kept == WithTicked(first, before, after[..i])
    {
      assert after[..i+1][..i] == after[..i];
      if after[i] !in before && after[i] !in kept {
        kept := kept + [after[i]];
      }
    }
    assert after[..|after|] == after;
    r := Join(kept, [COMMA]);
    ReadBackExactlyWhen(csv, before, after);
  }

  lemma ReadBackExactlyWhen(csv: string, before: seq<string>, after: seq<string>)
    ensures var written := WrittenTokens(Tokens(csv), before, after);
      Tokens(Join(written, [COMMA])) == written <==> forall t :: t in after && t !in before ==> IsToken(t)
  {
    hide Tokens, IsToken, Join, WithTicked;
    var written := WrittenTokens(Tokens(csv), before, after);
    var kept := Filter(Tokens(csv), (t: string) => t !in before || t in after);
    forall t ensures t in written <==> t in kept || (t in after && t !in before) {
      TickedMeaning(kept, before, after, t);
    }
    if forall t :: t in after && t !in before ==> IsToken(t) {
      forall t | t in kept ensures IsToken(t) {
        FilterMembers(Tokens(csv), (t: string) => t !in before || t in after, t);
        TokensAreTokens(csv, t);
      }
      TokensOfJoin(written);
    }
    if Tokens(Join(written, [COMMA])) == written {
      forall t | t in written ensures IsToken(t) {
        TokensAreTokens(Join(written, [COMMA]), t);
      }
    }
  }

  lemma {:induction false} TickedMeaning(kept: seq<string>, before: seq<string>, ticked: seq<string>, id: string)
    ensures kept <= WithTicked(kept, before, ticked)
    ensures id in WithTicked(kept, before, ticked) <==> id in kept || (id in ticked && id !in before)
    ensures var r := WithTicked(kept, before, ticked);
      forall i, j :: |kept| <= i < j < |r| ==> r[i] != r[j]
  {
    if ticked != [] {
      var n := |ticked| - 1;
      TickedMeaning(kept, before, ticked[..n], id);
      assert ticked == ticked[..n] + [ticked[n]];
    }
  }

  /** The ids kept stay in order, at the front; an id changes exactly when its box does. */
  lemma OnlyTickedChange(tokens: seq<string>, before: seq<string>, after: seq<string>, id: string)
    ensures Filter(tokens, (t: string) => t !in before || t in after) <= WrittenTokens(tokens, before, after)
    ensures id in WrittenTokens(tokens, before, after) <==>
      if id in before && id !in after then false else if id in after && id !in before then true else id in tokens
  {
    var kept := Filter(tokens, (t: string) => t !in before || t in after);
    TickedMeaning(kept, before, after, id);
    FilterMembers(tokens, (t: string) => t !in before || t in after, id);
  }

  // ---------------------------------------------------------------------------------------
  // The whole page
  // ---------------------------------------------------------------------------------------

  /** The boxes ticked when the page opens. */
  ghost predicate TickedAtFirst(items: seq<Item>, before: seq<string>) {
    forall id :: id in before <==> exists i :: 0 <= i < |items| && items[i].id == id && items[i].checked
  }

  /**
    After the page is saved, an id shown is excluded exactly when its box is ticked, and an id that is not shown is as
    it was: the plugins that Jeedom no longer has are kept until they are unticked.  "0" is never read back.
  */
  ghost predicate IsPageEdit(csv: string, items: seq<Item>, after: seq<string>, r: string) {
    forall id :: id != ZERO ==>
      (id in PluginIds(r) <==> if HasItem(items, id) then id in after else id in PluginIds(csv))
  }

  lemma PageEditIsExact(csv: string, names: map<string, string>, items: seq<Item>, before: seq<string>,
      after: seq<string>, r: string, id: string)
    requires forall i :: 0 <= i < |items| ==> IsItem(items[i], names, PluginIds(csv))
    requires forall k :: HasItem(items, k) <==> k != SELF && (IsPresent(names, k) || k in PluginIds(csv))
    requires TickedAtFirst(items, before) && forall k :: k in after ==> HasItem(items, k)
    requires if multiset(before) == multiset(after) then r == csv
      else Tokens(r) == WrittenTokens(Tokens(csv), before, after)
    requires id != ZERO
    ensures id in PluginIds(r) <==> if HasItem(items, id) then id in after else id in PluginIds(csv)
  {
    hide PluginIds, Tokens, WrittenTokens;
    PluginIdsMeaning(csv, id);
    PluginIdsMeaning(r, id);
    OnlyTickedChange(Tokens(csv), before, after, id);
    TickedIsExcluded(csv, names, items, before, id);
    if multiset(before) == multiset(after) {
      assert id in multiset(before) <==> id in multiset(after);
    }
  }

  /** The boxes ticked when the page opens, in the order of the page. */
  method InitiallyTicked(items: seq<Item>) returns (before: seq<string>)
    ensures TickedAtFirst(items, before)
  {
    before := [];
    for i := 0 to |items|
      invariant forall id :: id in before <==> exists k :: 0 <= k < i && items[k].id == id && items[k].checked
    {
      if items[i].checked {
        before := before + [items[i].id];
      }
    }
  }

  /** The page is built, some of its boxes are ticked, and the text is written. */
  method EditPage(items: seq<Item>, names: map<string, string>, csv: string, after: seq<string>,
      sort: seq<string> -> seq<string>)
    returns (r: string)
    requires forall i :: 0 <= i < |items| ==> IsItem(items[i], names, PluginIds(csv))
    requires forall k :: HasItem(items, k) <==> k != SELF && (IsPresent(names, k) || k in PluginIds(csv))
    requires IsTextSort(sort) && forall k :: k in after ==> HasItem(items, k)
    requires forall i :: 0 <= i < |items| ==> IsLine(items[i].id) && IsToken(items[i].id)
    ensures IsPageEdit(csv, items, after, r)
  {
    hide PluginIds, Tokens, WrittenTokens, SameBoxes, IsToken, IsItem, IsLine;
    var before := InitiallyTicked(items);
    forall t | t in before || t in after ensures IsLine(t) && IsToken(t) {
      var i :| 0 <= i < |items| && items[i].id == t;
    }
    r := ComputeExcludedPlugins(csv, before, after, sort);
    SameBoxesExactlyWhen(before, after, sort);
    forall id | id != ZERO ensures id in PluginIds(r) <==>
      if HasItem(items, id) then id in after else id in PluginIds(csv)
    {
      PageEditIsExact(csv, names, items, before, after, r, id);
    }
  }

  lemma TickedIsExcluded(csv: string, names: map<string, string>, items: seq<Item>, before: seq<string>, id: string)
    requires forall i :: 0 <= i < |items| ==> IsItem(items[i], names, PluginIds(csv))
    requires TickedAtFirst(items, before)
    ensures HasItem(items, id) ==> (id in before <==> id in PluginIds(csv))
    ensures id in before ==> HasItem(items, id)
  {
  }
}
