/**
 * The shopping-list page: grouping of the list by recipe title, the add
 * form with its guard, reset and quantity coercion, and the inline edit.
 */
module ShoppingListPage {
  import opened Wrappers
  import opened Strings
  import opened Seqs
  import opened AppContext

  /** The title of entries that name no recipe. */
  const OtherItems := "Other Items"

  /** `item.recipeName || "Other Items"`: the group an entry is shown in. */
  function Label(e: Entry): (l: string)
    ensures l != ""
    ensures e.recipeName.Some? && e.recipeName.value != "" ==> l == e.recipeName.value
    ensures e.recipeName.None? || e.recipeName == Some("") ==> l == OtherItems
  {
    match e.recipeName
    case Some(n) => if n != "" then n else OtherItems
    case None => OtherItems
  }

  /** One group of the page: its title and its entries. */
  datatype Group = Group(title: string, items: seq<Entry>)

  /** The distinct labels of `s`, in the order a left-to-right scan first meets them. */
  function Labels(s: seq<Entry>): seq<string> {
    if s == [] then []
    else
      var earlier := Labels(s[..|s| - 1]);
      var l := Label(s[|s| - 1]);
      if l in earlier then earlier else earlier + [l]
  }

  /** The test "this entry belongs to the group labelled `title`". */
  function LabelIs(title: string): Entry -> bool {
    (e: Entry) => Label(e) == title
  }

  /** The entries of `s` in the group labelled `title`, in list order. */
  function Members(s: seq<Entry>, title: string): seq<Entry> {
    Filter(s, LabelIs(title))
  }

  /** What the `groupedItems` reduce produces, as an ordered sequence of groups. */
  function Grouped(s: seq<Entry>): (r: seq<Group>)
    ensures |r| == |Labels(s)|
    ensures forall k, j :: 0 <= k < |r| && 0 <= j < |r[k].items| ==> Label(r[k].items[j]) == r[k].title
  {
    var labels := Labels(s);
    seq(|labels|, k requires 0 <= k < |labels| => Group(labels[k], Members(s, labels[k])))
  }

  /** Position of the first entry of `s` labelled `title`, or |s| when there is none. */
  function FirstWithLabel(s: seq<Entry>, title: string): (i: nat)
    ensures i <= |s|
    ensures i < |s| ==> Label(s[i]) == title
    ensures forall j :: 0 <= j < i ==> Label(s[j]) != title
  {
    if s == [] then 0
    else if Label(s[0]) == title then 0
    else 1 + FirstWithLabel(s[1..], title)
  }

  /** No title is listed twice. */
  lemma {:induction false} LabelsDistinct(s: seq<Entry>)
    ensures forall a, b :: 0 <= a < b < |Labels(s)| ==> Labels(s)[a] != Labels(s)[b]
  {
    if s != [] {
      LabelsDistinct(s[..|s| - 1]);
    }
  }

  /** Every entry's title is listed. */
  lemma {:induction false} LabelsCover(s: seq<Entry>)
    ensures forall i :: 0 <= i < |s| ==> Label(s[i]) in Labels(s)
  {
    if s != [] {
      var n := |s| - 1;
      LabelsCover(s[..n]);
      forall i | 0 <= i < n ensures Label(s[i]) in Labels(s) {
        assert s[..n][i] == s[i];
      }
    }
  }

  /** Only titles that entries carry are listed. */
  lemma {:induction false} LabelsFromEntries(s: seq<Entry>)
    ensures forall l :: l in Labels(s) ==> exists i :: 0 <= i < |s| && Label(s[i]) == l
  {
    if s != [] {
      var n := |s| - 1;
      LabelsFromEntries(s[..n]);
      forall l | l in Labels(s) ensures exists i :: 0 <= i < |s| && Label(s[i]) == l {
        if l in Labels(s[..n]) {
          var i :| 0 <= i < n && Label(s[..n][i]) == l;
          assert s[i] == s[..n][i];
        } else {
          assert Label(s[n]) == l;
        }
      }
    }
  }

  /** The labels are distinct, and they are exactly the labels the entries carry. */
  lemma LabelsExact(s: seq<Entry>)
    ensures forall a, b :: 0 <= a < b < |Labels(s)| ==> Labels(s)[a] != Labels(s)[b]
    ensures forall i :: 0 <= i < |s| ==> Label(s[i]) in Labels(s)
    ensures forall l :: l in Labels(s) ==> exists i :: 0 <= i < |s| && Label(s[i]) == l
  {
    LabelsDistinct(s);
    LabelsCover(s);
    LabelsFromEntries(s);
  }

  /** A title that is not listed has no members. */
  lemma UnlistedHasNoMembers(s: seq<Entry>, title: string)
    requires title !in Labels(s)
    ensures Members(s, title) == []
  {
    LabelsCover(s);
    FilterNone(s, LabelIs(title));
  }

  /** Appending an entry keeps the position of every title already met. */
  lemma FirstWithLabelSnoc(s: seq<Entry>, e: Entry, title: string)
    ensures FirstWithLabel(s, title) < |s| ==> FirstWithLabel(s + [e], title) == FirstWithLabel(s, title)
    ensures FirstWithLabel(s, title) == |s| && Label(e) == title ==> FirstWithLabel(s + [e], title) == |s|
  {
    var i := FirstWithLabel(s, title);
    if i < |s| {
      assert (s + [e])[i] == s[i];
    } else if Label(e) == title {
      assert (s + [e])[|s|] == e;
    }
    var j := FirstWithLabel(s + [e], title);
    assert forall m :: 0 <= m < |s| ==> (s + [e])[m] == s[m];
  }

  /** Every listed title is carried by some entry, so a scan meets it. */
  lemma LabelsAreMet(s: seq<Entry>)
    ensures forall a :: 0 <= a < |Labels(s)| ==> FirstWithLabel(s, Labels(s)[a]) < |s|
  {
    LabelsFromEntries(s);
    forall a | 0 <= a < |Labels(s)| ensures FirstWithLabel(s, Labels(s)[a]) < |s| {
      var i :| 0 <= i < |s| && Label(s[i]) == Labels(s)[a];
    }
  }

  /**
   * Groups come in first-occurrence order: the first entry of an earlier
   * group precedes the first entry of every later group.
   */
  lemma {:induction false} LabelsInFirstOccurrenceOrder(s: seq<Entry>)
    ensures forall a :: 0 <= a < |Labels(s)| ==> FirstWithLabel(s, Labels(s)[a]) < |s|
    ensures forall a, b :: 0 <= a < b < |Labels(s)| ==>
      FirstWithLabel(s, Labels(s)[a]) < FirstWithLabel(s, Labels(s)[b])
  {
    LabelsAreMet(s);
    if s != [] {
      var n := |s| - 1;
      var init, e := s[..n], s[n];
      assert s == init + [e];
      LabelsInFirstOccurrenceOrder(init);
      var L := Labels(init);
      forall a | 0 <= a < |L| ensures FirstWithLabel(s, L[a]) == FirstWithLabel(init, L[a]) {
        FirstWithLabelSnoc(init, e, L[a]);
      }
      if Label(e) !in L {
        LabelsCover(init);
        assert FirstWithLabel(init, Label(e)) == |init|;
        FirstWithLabelSnoc(init, e, Label(e));
        var M := Labels(s);
        assert M == L + [Label(e)];
        forall a, b | 0 <= a < b < |M| ensures FirstWithLabel(s, M[a]) < FirstWithLabel(s, M[b]) {
          assert M[a] == L[a];
          if b < |L| {
            assert M[b] == L[b];
          }
        }
      }
    }
  }

  /** An entry whose title has a group already joins the end of that group. */
  lemma GroupedSnocExisting(s: seq<Entry>, e: Entry, k: nat)
    requires k < |Labels(s)| && Labels(s)[k] == Label(e)
    ensures Grouped(s + [e]) == Grouped(s)[k := Group(Label(e), Members(s, Label(e)) + [e])]
  {
    assert (s + [e])[..|s|] == s;
    LabelsDistinct(s);
    var L := Labels(s);
    assert Labels(s + [e]) == L;
    var G, G' := Grouped(s), Grouped(s + [e]);
    var H := G[k := Group(Label(e), Members(s, Label(e)) + [e])];
    assert |G'| == |L| == |H|;
    forall j | 0 <= j < |L| ensures G'[j] == H[j] {
      FilterSnoc(s, e, LabelIs(L[j]));
      if j != k {
        assert L[j] != Label(e);
      }
    }
  }

  /** An entry with a title not seen before opens a new group at the end. */
  lemma GroupedSnocNew(s: seq<Entry>, e: Entry)
    requires Label(e) !in Labels(s)
    ensures Grouped(s + [e]) == Grouped(s) + [Group(Label(e), [e])]
  {
    assert (s + [e])[..|s|] == s;
    var L := Labels(s);
    assert Labels(s + [e]) == L + [Label(e)];
    var G, G' := Grouped(s), Grouped(s + [e]);
    var H := G + [Group(Label(e), [e])];
    assert |G'| == |L| + 1 == |H|;
    forall j | 0 <= j < |L| ensures G'[j] == H[j] {
      FilterSnoc(s, e, LabelIs(L[j]));
      assert L[j] != Label(e);
    }
    FilterSnoc(s, e, LabelIs(Label(e)));
    UnlistedHasNoMembers(s, Label(e));
    assert G'[|L|] == H[|L|];
  }

  /**
   * The `groupedItems` reduce: scan the list once, appending each entry to
   * the group of its title and opening a group for a title not seen before.
   */
  method GroupItems(list: seq<Entry>) returns (groups: seq<Group>)
    ensures groups == Grouped(list)
  {
    groups := [];
    for i := 0 to |list|
      invariant groups == Grouped(list[..i])
    {
      var e := list[i];
      var title := Label(e);
      var k := 0;
      while k < |groups| && groups[k].title != title
        invariant 0 <= k <= |groups|
        invariant forall j :: 0 <= j < k ==> groups[j].title != title
      {
        k := k + 1;
      }
      assert list[..i + 1] == list[..i] + [e];
      if k < |groups| {
        GroupedSnocExisting(list[..i], e, k);
        groups := groups[k := Group(title, groups[k].items + [e])];
      } else {
        ghost var L := Labels(list[..i]);
        assert |groups| == |L| && forall j :: 0 <= j < |L| ==> groups[j].title == L[j];
        assert title !in L;
        GroupedSnocNew(list[..i], e);
        groups := groups + [Group(title, [e])];
      }
    }
    assert list[..|list|] == list;
  }

  /** The number of entries over all groups. */
  function TotalSize(groups: seq<Group>): nat {
    if groups == [] then 0
    else TotalSize(groups[..|groups| - 1]) + |groups[|groups| - 1].items|
  }

  /** Replacing one group changes the total by the difference in sizes. */
  lemma {:induction false} TotalSizeUpdate(groups: seq<Group>, k: nat, g: Group)
    requires k < |groups|
    ensures TotalSize(groups[k := g]) == TotalSize(groups) - |groups[k].items| + |g.items|
  {
    var n := |groups| - 1;
    if k < n {
      assert groups[k := g][..n] == groups[..n][k := g];
      TotalSizeUpdate(groups[..n], k, g);
    } else {
      assert groups[k := g][..n] == groups[..n];
    }
  }

  /** The group sizes add up to the length of the list. */
  lemma {:induction false} GroupedTotal(s: seq<Entry>)
    ensures TotalSize(Grouped(s)) == |s|
  {
    if s != [] {
      var n := |s| - 1;
      var init, e := s[..n], s[n];
      assert s == init + [e];
      GroupedTotal(init);
      var G := Grouped(init);
      if Label(e) in Labels(init) {
        var k :| 0 <= k < |Labels(init)| && Labels(init)[k] == Label(e);
        GroupedSnocExisting(init, e, k);
        TotalSizeUpdate(G, k, Group(Label(e), Members(init, Label(e)) + [e]));
      } else {
        GroupedSnocNew(init, e);
        assert (G + [Group(Label(e), [e])])[..|G|] == G;
      }
    }
  }

  /**
   * One group holds exactly the entries of its own title, at least one,
   * in list order.
   */
  lemma GroupHoldsItsTitle(s: seq<Entry>, k: nat)
    requires k < |Grouped(s)|
    ensures var g := Grouped(s)[k];
      && (forall i :: 0 <= i < |s| ==> (s[i] in g.items <==> g.title == Label(s[i])))
      && g.items != []
      && IsSubsequence(g.items, s)
  {
    var L := Labels(s);
    LabelsExact(s);
    FilterMembers(s, LabelIs(L[k]));
    FilterIsSubsequence(s, LabelIs(L[k]));
    assert L[k] in L;
    var i :| 0 <= i < |s| && Label(s[i]) == L[k];
    assert s[i] in Grouped(s)[k].items;
  }

  /**
   * A group holds every copy of an entry of its title, as often as the list
   * does, and no entry of another title.
   */
  lemma GroupKeepsEveryCopy(s: seq<Entry>, k: nat)
    requires k < |Grouped(s)|
    ensures var g := Grouped(s)[k];
      forall e :: multiset(g.items)[e] == if Label(e) == g.title then multiset(s)[e] else 0
  {
    FilterMultiset(s, LabelIs(Labels(s)[k]));
  }

  /** Group titles are distinct, and every entry's title is one of them. */
  lemma EveryEntryHasAGroup(s: seq<Entry>)
    ensures var g := Grouped(s);
      && (forall a, b :: 0 <= a < b < |g| ==> g[a].title != g[b].title)
      && (forall i :: 0 <= i < |s| ==> exists k :: 0 <= k < |g| && g[k].title == Label(s[i]))
  {
    var g := Grouped(s);
    LabelsExact(s);
    var L := Labels(s);
    assert forall k :: 0 <= k < |g| ==> g[k].title == L[k];
    forall i | 0 <= i < |s| ensures exists k :: 0 <= k < |g| && g[k].title == Label(s[i]) {
      var k :| 0 <= k < |L| && L[k] == Label(s[i]);
      assert g[k].title == Label(s[i]);
    }
  }

  /**
   * Grouping partitions the list: the sizes sum to its length, titles are
   * distinct, every entry has a group and lies in exactly the group of its
   * own title, and each group is non-empty and lists its entries in list
   * order.
   */
  lemma GroupingPartitions(s: seq<Entry>)
    ensures var g := Grouped(s);
      && TotalSize(g) == |s|
      && (forall a, b :: 0 <= a < b < |g| ==> g[a].title != g[b].title)
      && (forall i :: 0 <= i < |s| ==> exists k :: 0 <= k < |g| && g[k].title == Label(s[i]))
      && (forall i, k :: 0 <= i < |s| && 0 <= k < |g| ==> (s[i] in g[k].items <==> g[k].title == Label(s[i])))
      && (forall k :: 0 <= k < |g| ==> g[k].items != [] && IsSubsequence(g[k].items, s))
  {
    var g := Grouped(s);
    GroupedTotal(s);
    EveryEntryHasAGroup(s);
    forall k | 0 <= k < |g|
      ensures forall i :: 0 <= i < |s| ==> (s[i] in g[k].items <==> g[k].title == Label(s[i]))
      ensures g[k].items != [] && IsSubsequence(g[k].items, s)
    {
      GroupHoldsItsTitle(s, k);
    }
  }

  /** The add form after a successful add: name "", quantity 1, unit "". */
  const BlankForm := Item("", Num(1), Some(""), None, None)

  /** The page's own state: the add form, the entry being edited and its draft. */
  class ShoppingListView {
    var newItem: Item
    var editingId: Option<int>
    var editItem: Patch
    var showAddForm: bool

    constructor ()
      ensures newItem == BlankForm && editingId == None && editItem == EmptyPatch && !showAddForm
    {
      newItem := BlankForm;
      editingId := None;
      editItem := EmptyPatch;
      showAddForm := false;
    }

    /**
     * `handleAddItem`: add the form's item only when its trimmed name is not
     * empty, then reset the form and close it; otherwise change nothing.
     */
    method HandleAddItem(store: Store, now: int)
      modifies this, store
      ensures Trim(old(newItem.name)) != "" ==>
        && store.shoppingList == AddItem(old(store.shoppingList), old(newItem), now)
        && newItem == BlankForm && !showAddForm
      ensures Trim(old(newItem.name)) == "" ==>
        && store.shoppingList == old(store.shoppingList)
        && newItem == old(newItem) && showAddForm == old(showAddForm)
      ensures store.chatHistory == old(store.chatHistory)
      ensures editingId == old(editingId) && editItem == old(editItem)
    {
      if Trim(newItem.name) != "" {
        store.AddToShoppingList(newItem, now);
        newItem := BlankForm;
        showAddForm := false;
      }
    }

    /** The "+" button in the header flips the add form; "Cancel" closes it and "Add First Item" opens it. */
    method SetShowAddForm(show: bool)
      modifies this
      ensures showAddForm == show
      ensures newItem == old(newItem) && editingId == old(editingId) && editItem == old(editItem)
    {
      showAddForm := show;
    }

    /** The name input of the add form. */
    method SetNewName(name: string)
      modifies this
      ensures newItem == old(newItem).(name := name)
      ensures editingId == old(editingId) && editItem == old(editItem) && showAddForm == old(showAddForm)
    {
      newItem := newItem.(name := name);
    }

    /** The unit input of the add form. */
    method SetNewUnit(unit: string)
      modifies this
      ensures newItem == old(newItem).(unit := Some(unit))
      ensures editingId == old(editingId) && editItem == old(editItem) && showAddForm == old(showAddForm)
    {
      newItem := newItem.(unit := Some(unit));
    }

    /** The quantity input of the add form: `parseInt(value) || 1`. */
    method SetNewQuantity(parsed: Quantity)
      modifies this
      ensures newItem == old(newItem).(quantity := Num(OrOne(parsed)))
      ensures editingId == old(editingId) && editItem == old(editItem) && showAddForm == old(showAddForm)
    {
      newItem := newItem.(quantity := Num(OrOne(parsed)));
    }

    /** `startEditing(item)`: remember the id and take a full copy of the entry. */
    method StartEditing(e: Entry)
      modifies this
      ensures editingId == Some(e.id) && editItem == FullPatch(e)
      ensures newItem == old(newItem) && showAddForm == old(showAddForm)
    {
      editingId := Some(e.id);
      editItem := FullPatch(e);
    }

    /** The name input of the edit row. */
    method SetEditName(name: string)
      modifies this
      ensures editItem == old(editItem).(name := Some(name))
      ensures editingId == old(editingId) && newItem == old(newItem) && showAddForm == old(showAddForm)
    {
      editItem := editItem.(name := Some(name));
    }

    /** The unit input of the edit row. */
    method SetEditUnit(unit: string)
      modifies this
      ensures editItem == old(editItem).(unit := Some(Some(unit)))
      ensures editingId == old(editingId) && newItem == old(newItem) && showAddForm == old(showAddForm)
    {
      editItem := editItem.(unit := Some(Some(unit)));
    }

    /** The quantity input of the edit row: `parseInt(value) || 1`. */
    method SetEditQuantity(parsed: Quantity)
      modifies this
      ensures editItem == old(editItem).(quantity := Some(Num(OrOne(parsed))))
      ensures editingId == old(editingId) && newItem == old(newItem) && showAddForm == old(showAddForm)
    {
      editItem := editItem.(quantity := Some(Num(OrOne(parsed))));
    }

    /**
     * `saveEdit`: send the whole draft as the update of the entry being
     * edited, then leave edit mode. With nothing being edited no entry
     * matches the null id, so the list is unchanged.
     */
    method SaveEdit(store: Store)
      modifies this, store
      ensures old(editingId).Some? ==>
        store.shoppingList == UpdateById(old(store.shoppingList), old(editingId).value, old(editItem))
      ensures old(editingId).None? ==> store.shoppingList == old(store.shoppingList)
      ensures store.chatHistory == old(store.chatHistory)
      ensures editingId == None && editItem == EmptyPatch
      ensures newItem == old(newItem) && showAddForm == old(showAddForm)
    {
      if editingId.Some? {
        store.UpdateShoppingListItem(editingId.value, editItem);
      }
      editingId := None;
      editItem := EmptyPatch;
    }

    /** `cancelEdit`: leave edit mode; the store is not touched. */
    method CancelEdit()
      modifies this
      ensures editingId == None && editItem == EmptyPatch
      ensures newItem == old(newItem) && showAddForm == old(showAddForm)
    {
      editingId := None;
      editItem := EmptyPatch;
    }
  }

  /**
   * Saving an edit that changed nothing leaves the list as it was, provided
   * no other entry shares the edited entry's id.
   */
  lemma SaveUnchangedEdit(list: seq<Entry>, i: nat)
    requires i < |list|
    requires IdsDistinct(list)
    ensures UpdateById(list, list[i].id, FullPatch(list[i])) == list
  {
    var r := UpdateById(list, list[i].id, FullPatch(list[i]));
    forall j | 0 <= j < |list| ensures r[j] == list[j] {
      if list[j].id == list[i].id {
        assert j == i;
      }
    }
  }

  /**
   * The copy of an entry added from the form has no recipe keys: saving it
   * unchanged over an id that a recipe entry shares renames that entry but
   * leaves it in its recipe's group.
   */
  lemma ManualEditKeepsTwinsRecipe(recipeEntry: Entry, manual: Entry)
    requires recipeEntry.id == manual.id
    requires recipeEntry.recipeName == Some("Jollof Rice")
    requires manual.recipeId.None? && manual.recipeName.None?
    requires !manual.quantity.Undefined? && manual.unit.Some?
    ensures var u := UpdateById([recipeEntry, manual], manual.id, FullPatch(manual));
      && u == [recipeEntry.(name := manual.name, quantity := manual.quantity, unit := manual.unit), manual]
      && Label(u[0]) == "Jollof Rice"
      && Label(u[1]) == OtherItems
  {
  }

  /**
   * Three entries from "Jollof Rice"
   * and one without a recipe make two groups, "Jollof Rice" first with its
   * three entries in list order, then "Other Items".
   */
  lemma JollofScenario(a: Entry, b: Entry, c: Entry, d: Entry)
    requires a.recipeName == b.recipeName == d.recipeName == Some("Jollof Rice")
    requires c.recipeName == None
    ensures Grouped([a, b, c, d]) == [Group("Jollof Rice", [a, b, d]), Group(OtherItems, [c])]
  {
    JollofLabels(a, b, c, d);
    JollofMembers(a, b, c, d);
  }

  lemma JollofLabels(a: Entry, b: Entry, c: Entry, d: Entry)
    requires a.recipeName == b.recipeName == d.recipeName == Some("Jollof Rice")
    requires c.recipeName == None
    ensures Labels([a, b, c, d]) == ["Jollof Rice", OtherItems]
  {
    var jr := "Jollof Rice";
    assert Label(a) == jr && Label(b) == jr && Label(d) == jr;
    assert Label(c) == OtherItems && jr != OtherItems;
    assert [a, b, c, d][..3] == [a, b, c] && [a, b, c][..2] == [a, b] && [a, b][..1] == [a] && [a][..0] == [];
    assert Labels([a]) == [jr];
    assert Labels([a, b]) == [jr];
    assert Labels([a, b, c]) == [jr, OtherItems];
  }

  lemma JollofMembers(a: Entry, b: Entry, c: Entry, d: Entry)
    requires a.recipeName == b.recipeName == d.recipeName == Some("Jollof Rice")
    requires c.recipeName == None
    ensures Members([a, b, c, d], "Jollof Rice") == [a, b, d]
    ensures Members([a, b, c, d], OtherItems) == [c]
  {
    var jr := "Jollof Rice";
    assert [a, b, c, d][1..] == [b, c, d] && [b, c, d][1..] == [c, d] && [c, d][1..] == [d] && [d][1..] == [];
    var pj, po := LabelIs(jr), LabelIs(OtherItems);
    assert pj(a) && pj(b) && !pj(c) && pj(d);
    assert !po(a) && !po(b) && po(c) && !po(d);
    assert Filter([d], pj) == [d] && Filter([d], po) == [];
    assert Filter([c, d], pj) == [d] && Filter([c, d], po) == [c];
    assert Filter([b, c, d], pj) == [b, d] && Filter([b, c, d], po) == [c];
  }
}
