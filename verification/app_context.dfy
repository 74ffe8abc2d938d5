/**
 * The application store: the shopping list and the chat log, each replaced
 * through its setter by a pure updater (`setX(prev => f(prev))`). The
 * updaters are the functions below; the `Store` class holds the two pieces
 * of state and applies them one call at a time.
 *
 * `Date.now()` is not modelled as a clock: every operation that stamps an
 * id receives the reading as the parameter `now`.
 */
module AppContext {
  import opened Wrappers
  import opened Strings
  import opened Seqs

  /** The JavaScript values a quantity field can hold. */
  datatype Quantity = Undefined | Num(n: int) | NaN

  /** `q || 1`: the falsy values undefined, 0 and NaN become 1. */
  function OrOne(q: Quantity): (r: int)
    ensures r != 0
    ensures q.Num? && q.n != 0 ==> r == q.n
    ensures q.Undefined? || q.NaN? || q == Num(0) ==> r == 1
  {
    match q
    case Num(n) => if n != 0 then n else 1
    case _ => 1
  }

  /** `q + k` on JavaScript numbers: undefined or NaN plus a number is NaN. */
  function Plus(q: Quantity, k: int): (r: Quantity)
    ensures r.Num? <==> q.Num?
    ensures q.Num? ==> r.n - q.n == k
    ensures !q.Num? ==> r == NaN
  {
    match q
    case Num(n) => Num(n + k)
    case _ => NaN
  }

  /** A candidate passed to `addToShoppingList`; absent fields are `None`/`Undefined`. */
  datatype Item = Item(
    name: string,
    quantity: Quantity,
    unit: Option<string>,
    recipeId: Option<int>,
    recipeName: Option<string>)

  /** One line of the shopping list. */
  datatype Entry = Entry(
    id: int,
    name: string,
    quantity: Quantity,
    unit: Option<string>,
    recipeId: Option<int>,
    recipeName: Option<string>)

  /** The fields an update overwrites; `None` is a field the patch does not carry. */
  datatype Patch = Patch(
    id: Option<int>,
    name: Option<string>,
    quantity: Option<Quantity>,
    unit: Option<Option<string>>,
    recipeId: Option<Option<int>>,
    recipeName: Option<Option<string>>)

  /** The patch that carries no field (`{}`). */
  const EmptyPatch := Patch(None, None, None, None, None, None)

  /**
   * The entry has every key: a quantity, a unit and both recipe fields. An
   * entry added from the shopping-list form has no recipe keys.
   */
  predicate HasAllKeys(e: Entry) {
    !e.quantity.Undefined? && e.unit.Some? && e.recipeId.Some? && e.recipeName.Some?
  }

  /**
   * The copy `{ ...e }`: it carries exactly the keys `e` has, so a field
   * `e` lacks is not part of it.
   */
  function FullPatch(e: Entry): (p: Patch)
    ensures ApplyPatch(e, p) == e
    ensures forall e' :: (ApplyPatch(e', p) ==
      e.(quantity := if e.quantity.Undefined? then e'.quantity else e.quantity,
         unit := if e.unit.Some? then e.unit else e'.unit,
         recipeId := if e.recipeId.Some? then e.recipeId else e'.recipeId,
         recipeName := if e.recipeName.Some? then e.recipeName else e'.recipeName))
    ensures HasAllKeys(e) ==> forall e' :: ApplyPatch(e', p) == e
  {
    Patch(Some(e.id), Some(e.name),
      if e.quantity.Undefined? then None else Some(e.quantity),
      if e.unit.Some? then Some(e.unit) else None,
      if e.recipeId.Some? then Some(e.recipeId) else None,
      if e.recipeName.Some? then Some(e.recipeName) else None)
  }

  /** The test `i.name.toLowerCase() === item.name.toLowerCase()`. */
  function SameName(item: Item): Entry -> bool {
    (e: Entry) => Lower(e.name) == Lower(item.name)
  }

  /** The `find` of the add succeeds exactly when the name is on the list, ignoring case. */
  lemma FindSameNameIffHasName(list: seq<Entry>, item: Item)
    ensures FindIndex(list, SameName(item)).Some? <==> HasName(list, item.name)
  {
    if HasName(list, item.name) {
      var k :| 0 <= k < |list| && Lower(list[k].name) == Lower(item.name);
      assert SameName(item)(list[k]);
    }
  }

  /** Some entry of `list` has `name`, ignoring letter case. */
  predicate HasName(list: seq<Entry>, name: string) {
    exists i :: 0 <= i < |list| && Lower(list[i].name) == Lower(name)
  }

  /** No two entries have the same name, ignoring letter case. */
  predicate NamesDistinct(list: seq<Entry>) {
    forall i, j :: 0 <= i < j < |list| ==> Lower(list[i].name) != Lower(list[j].name)
  }

  /** No two entries have the same id. */
  predicate IdsDistinct(list: seq<Entry>) {
    forall i, j :: 0 <= i < j < |list| ==> list[i].id != list[j].id
  }

  /** No entry has `id`. */
  predicate IdAbsent(list: seq<Entry>, id: int) {
    forall i :: 0 <= i < |list| ==> list[i].id != id
  }

  /** `{ ...item, id }`: the entry appended for a candidate, quantity copied as it is. */
  function NewEntry(item: Item, id: int): (r: Entry)
    ensures r.id == id && r.name == item.name && r.quantity == item.quantity
    ensures r.unit == item.unit && r.recipeId == item.recipeId && r.recipeName == item.recipeName
  {
    Entry(id, item.name, item.quantity, item.unit, item.recipeId, item.recipeName)
  }

  /** `{ ...i, quantity: i.quantity + (item.quantity || 1) }`. */
  function Merge(e: Entry, item: Item): (r: Entry)
    ensures r == e.(quantity := r.quantity)
    ensures e.quantity.Num? ==> r.quantity.Num? && r.quantity.n != e.quantity.n
    ensures !e.quantity.Num? ==> r.quantity == NaN
  {
    e.(quantity := Plus(e.quantity, OrOne(item.quantity)))
  }

  /** The updater of `addToShoppingList`: merge by name, otherwise append. */
  function AddItem(list: seq<Entry>, item: Item, id: int): (r: seq<Entry>)
    ensures |r| == if HasName(list, item.name) then |list| else |list| + 1
    ensures HasName(r, item.name)
  {
    if FindIndex(list, SameName(item)).Some? then
      var r := seq(|list|, i requires 0 <= i < |list| =>
        if SameName(item)(list[i]) then Merge(list[i], item) else list[i]);
      assert r[FindIndex(list, SameName(item)).value].name == list[FindIndex(list, SameName(item)).value].name;
      r
    else
      var r := list + [NewEntry(item, id)];
      assert r[|list|].name == item.name;
      r
  }

  /**
   * Adding a name not yet on the list appends one entry that carries the
   * candidate's fields (quantity not defaulted) and the new id; the earlier
   * entries stay as they were.
   */
  lemma AddNewName(list: seq<Entry>, item: Item, id: int)
    requires !HasName(list, item.name)
    ensures AddItem(list, item, id) == list + [NewEntry(item, id)]
    ensures var r := AddItem(list, item, id);
      && |r| == |list| + 1
      && r[..|list|] == list
      && r[|list|].id == id
      && r[|list|].name == item.name
      && r[|list|].quantity == item.quantity
      && r[|list|].unit == item.unit
      && r[|list|].recipeId == item.recipeId
      && r[|list|].recipeName == item.recipeName
  {
  }

  /**
   * Adding a name already on the list keeps the length; every entry with
   * that name (not only the first) gains `item.quantity || 1` and keeps its
   * id, name, unit and recipe fields; every other entry is untouched.
   */
  lemma AddExistingName(list: seq<Entry>, item: Item, id: int)
    requires HasName(list, item.name)
    ensures var r := AddItem(list, item, id);
      && |r| == |list|
      && (forall i :: 0 <= i < |list| && Lower(list[i].name) == Lower(item.name) ==>
            && r[i].quantity == Plus(list[i].quantity, OrOne(item.quantity))
            && r[i].id == list[i].id
            && r[i].name == list[i].name
            && r[i].unit == list[i].unit
            && r[i].recipeId == list[i].recipeId
            && r[i].recipeName == list[i].recipeName)
      && (forall i :: 0 <= i < |list| && Lower(list[i].name) != Lower(item.name) ==> r[i] == list[i])
  {
    var k :| 0 <= k < |list| && Lower(list[k].name) == Lower(item.name);
    assert SameName(item)(list[k]);
    var r := AddItem(list, item, id);
    assert forall i :: 0 <= i < |list| ==>
      r[i] == if SameName(item)(list[i]) then Merge(list[i], item) else list[i];
  }

  /** Names keep their keys through an add, and the candidate's name is on the list afterwards. */
  lemma AddKeepsNames(list: seq<Entry>, item: Item, id: int)
    ensures var r := AddItem(list, item, id);
      && |r| >= |list|
      && (forall i :: 0 <= i < |list| ==> Lower(r[i].name) == Lower(list[i].name))
      && HasName(r, item.name)
  {
    var r := AddItem(list, item, id);
    if HasName(list, item.name) {
      AddExistingName(list, item, id);
      var k :| 0 <= k < |list| && Lower(list[k].name) == Lower(item.name);
      assert Lower(r[k].name) == Lower(item.name);
    } else {
      AddNewName(list, item, id);
      assert forall i :: 0 <= i < |list| ==> r[i] == r[..|list|][i];
      assert Lower(r[|list|].name) == Lower(item.name);
    }
  }

  /** If no two entries share a name before an add, none do after it. */
  lemma AddKeepsNamesDistinct(list: seq<Entry>, item: Item, id: int)
    requires NamesDistinct(list)
    ensures NamesDistinct(AddItem(list, item, id))
  {
    var r := AddItem(list, item, id);
    if HasName(list, item.name) {
      AddExistingName(list, item, id);
    } else {
      AddNewName(list, item, id);
      forall i, j | 0 <= i < j < |r| ensures Lower(r[i].name) != Lower(r[j].name) {
        assert r[i] == r[..|list|][i] == list[i];
        if j < |list| {
          assert r[j] == r[..|list|][j] == list[j];
        }
      }
    }
  }

  /** An add with an id no entry has keeps the ids distinct. */
  lemma AddFreshIdKeepsIdsDistinct(list: seq<Entry>, item: Item, id: int)
    requires IdsDistinct(list)
    requires IdAbsent(list, id)
    ensures IdsDistinct(AddItem(list, item, id))
  {
    var r := AddItem(list, item, id);
    if HasName(list, item.name) {
      AddExistingName(list, item, id);
    } else {
      AddNewName(list, item, id);
      forall i, j | 0 <= i < j < |r| ensures r[i].id != r[j].id {
        assert r[i] == r[..|list|][i] == list[i];
        if j < |list| {
          assert r[j] == r[..|list|][j] == list[j];
        }
      }
    }
  }

  /** A sequence of adds, one after another, the k-th stamped with `ids[k]`. */
  function AddMany(list: seq<Entry>, items: seq<Item>, ids: seq<int>): (r: seq<Entry>)
    requires |items| == |ids|
    ensures |list| <= |r| <= |list| + |items|
    ensures items != [] ==> HasName(r, items[|items| - 1].name)
  {
    if items == [] then list
    else AddItem(AddMany(list, items[..|items| - 1], ids[..|ids| - 1]), items[|items| - 1], ids[|ids| - 1])
  }

  /** What the adds of `items` contribute to the entry whose name has key `key`. */
  function QuantityFor(items: seq<Item>, key: string): int {
    if items == [] then 0
    else
      var last := items[|items| - 1];
      QuantityFor(items[..|items| - 1], key) + (if Lower(last.name) == key then OrOne(last.quantity) else 0)
  }

  /** After a sequence of adds every added name is on the list, and names on it stay on it. */
  lemma {:induction false} AddManyKeepsNames(list: seq<Entry>, items: seq<Item>, ids: seq<int>)
    requires |items| == |ids|
    ensures var r := AddMany(list, items, ids);
      && |r| >= |list|
      && (forall i :: 0 <= i < |list| ==> Lower(r[i].name) == Lower(list[i].name))
      && (forall k :: 0 <= k < |items| ==> HasName(r, items[k].name))
  {
    if items != [] {
      var n := |items| - 1;
      var prev := AddMany(list, items[..n], ids[..n]);
      AddManyKeepsNames(list, items[..n], ids[..n]);
      AddKeepsNames(prev, items[n], ids[n]);
      var r := AddMany(list, items, ids);
      forall k | 0 <= k < |items| ensures HasName(r, items[k].name) {
        if k < n {
          assert items[..n][k] == items[k];
          var i :| 0 <= i < |prev| && Lower(prev[i].name) == Lower(items[k].name);
          assert Lower(r[i].name) == Lower(items[k].name);
        }
      }
    }
  }

  /** The entries the append path creates for `items`, stamped with `ids`. */
  function NewEntries(items: seq<Item>, ids: seq<int>): (r: seq<Entry>)
    requires |items| == |ids|
    ensures |r| == |items|
    ensures forall k :: 0 <= k < |r| ==> r[k] == NewEntry(items[k], ids[k])
  {
    if items == [] then []
    else NewEntries(items[..|items| - 1], ids[..|ids| - 1]) + [NewEntry(items[|items| - 1], ids[|ids| - 1])]
  }

  /**
   * Adds of names that are new to the list and to each other all take the
   * append path: the list grows by one new entry per add, in order.
   */
  lemma {:induction false} AddManyAllNew(list: seq<Entry>, items: seq<Item>, ids: seq<int>)
    requires |items| == |ids|
    requires forall k :: 0 <= k < |items| ==> !HasName(list, items[k].name)
    requires forall j, k :: 0 <= j < k < |items| ==> Lower(items[j].name) != Lower(items[k].name)
    ensures AddMany(list, items, ids) == list + NewEntries(items, ids)
  {
    if items != [] {
      var n := |items| - 1;
      var init := items[..n];
      assert forall k :: 0 <= k < n ==> init[k] == items[k];
      AddManyAllNew(list, init, ids[..n]);
      var prev := AddMany(list, init, ids[..n]);
      var added := NewEntries(init, ids[..n]);
      assert prev == list + added;
      NewEntriesLackName(list, init, ids[..n], items[n].name);
      AddNewName(prev, items[n], ids[n]);
      var e := NewEntry(items[n], ids[n]);
      assert AddMany(list, items, ids) == prev + [e];
      assert NewEntries(items, ids) == added + [e];
      assert list + (added + [e]) == (list + added) + [e];
    }
  }

  /** A name that is neither on the list nor among the candidates is not on the extended list. */
  lemma NewEntriesLackName(list: seq<Entry>, items: seq<Item>, ids: seq<int>, name: string)
    requires |items| == |ids|
    requires !HasName(list, name)
    requires forall k :: 0 <= k < |items| ==> Lower(items[k].name) != Lower(name)
    ensures !HasName(list + NewEntries(items, ids), name)
  {
    var r, added := list + NewEntries(items, ids), NewEntries(items, ids);
    forall i | 0 <= i < |r| ensures Lower(r[i].name) != Lower(name) {
      if i >= |list| {
        assert r[i] == added[i - |list|];
      }
    }
  }

  /** The ids of the list, in order. */
  function Ids(list: seq<Entry>): (r: seq<int>)
    ensures |r| == |list|
    ensures forall i :: 0 <= i < |list| ==> r[i] == list[i].id
  {
    seq(|list|, i requires 0 <= i < |list| => list[i].id)
  }

  /** Every id after a sequence of adds was on the list before or is one of the stamps. */
  lemma {:induction false} AddManyIdsFrom(list: seq<Entry>, items: seq<Item>, ids: seq<int>)
    requires |items| == |ids|
    ensures forall i :: 0 <= i < |AddMany(list, items, ids)| ==>
      AddMany(list, items, ids)[i].id in Ids(list) || AddMany(list, items, ids)[i].id in ids
  {
    if items != [] {
      var n := |items| - 1;
      AddManyIdsFrom(list, items[..n], ids[..n]);
      var prev := AddMany(list, items[..n], ids[..n]);
      var r := AddItem(prev, items[n], ids[n]);
      assert forall x :: x in ids[..n] ==> x in ids;
      assert ids[n] in ids;
      forall i | 0 <= i < |r| ensures r[i].id in Ids(list) || r[i].id in ids {
        if i < |prev| {
          assert prev[i].id in Ids(list) || prev[i].id in ids[..n];
        }
        if HasName(prev, items[n].name) {
          AddExistingName(prev, items[n], ids[n]);
          assert r[i].id == prev[i].id;
        } else {
          AddNewName(prev, items[n], ids[n]);
          if i < |prev| {
            assert r[i] == r[..|prev|][i] == prev[i];
          } else {
            assert r[i].id == ids[n];
          }
        }
      }
    }
  }

  /** Adds stamped with pairwise distinct ids that no entry has keep the ids distinct. */
  lemma {:induction false} AddManyFreshIds(list: seq<Entry>, items: seq<Item>, ids: seq<int>)
    requires |items| == |ids|
    requires IdsDistinct(list)
    requires forall k :: 0 <= k < |ids| ==> IdAbsent(list, ids[k])
    requires forall j, k :: 0 <= j < k < |ids| ==> ids[j] != ids[k]
    ensures IdsDistinct(AddMany(list, items, ids))
  {
    if items != [] {
      var n := |items| - 1;
      AddManyFreshIds(list, items[..n], ids[..n]);
      var prev := AddMany(list, items[..n], ids[..n]);
      AddManyIdsFrom(list, items[..n], ids[..n]);
      assert ids[n] !in Ids(list);
      assert ids[n] !in ids[..n];
      forall i | 0 <= i < |prev| ensures prev[i].id != ids[n] {
        assert prev[i].id in Ids(list) || prev[i].id in ids[..n];
      }
      AddFreshIdKeepsIdsDistinct(prev, items[n], ids[n]);
    }
  }

  /** No item contributes to a key that is not on the list. */
  lemma {:induction false} QuantityForAbsent(items: seq<Item>, key: string)
    requires forall k :: 0 <= k < |items| ==> Lower(items[k].name) != key
    ensures QuantityFor(items, key) == 0
  {
    if items != [] {
      QuantityForAbsent(items[..|items| - 1], key);
    }
  }

  /** Each entry's quantity is the sum contributed by the adds of `items` with its name. */
  ghost predicate QuantitiesSum(r: seq<Entry>, items: seq<Item>) {
    forall i :: 0 <= i < |r| ==> r[i].quantity == Num(QuantityFor(items, Lower(r[i].name)))
  }

  /** The merge step of `MergeInvariant`: the added name is already on the list. */
  lemma MergeStepExisting(prev: seq<Entry>, items: seq<Item>, id: int)
    requires items != [] && QuantitiesSum(prev, items[..|items| - 1])
    requires items[|items| - 1].quantity.Num? && items[|items| - 1].quantity.n != 0
    requires HasName(prev, items[|items| - 1].name)
    ensures QuantitiesSum(AddItem(prev, items[|items| - 1], id), items)
  {
    var x := items[|items| - 1];
    assert OrOne(x.quantity) == x.quantity.n;
    AddExistingName(prev, x, id);
  }

  /** The append step of `MergeInvariant`: the added name is new to the list. */
  lemma MergeStepNew(prev: seq<Entry>, items: seq<Item>, id: int)
    requires items != [] && QuantitiesSum(prev, items[..|items| - 1])
    requires items[|items| - 1].quantity.Num? && items[|items| - 1].quantity.n != 0
    requires !HasName(prev, items[|items| - 1].name)
    requires forall k :: 0 <= k < |items| - 1 ==> HasName(prev, items[k].name)
    ensures QuantitiesSum(AddItem(prev, items[|items| - 1], id), items)
  {
    var n := |items| - 1;
    var x, init := items[n], items[..n];
    assert OrOne(x.quantity) == x.quantity.n;
    AddNewName(prev, x, id);
    var r := AddItem(prev, x, id);
    forall i | 0 <= i < |r| ensures r[i].quantity == Num(QuantityFor(items, Lower(r[i].name))) {
      if i < |prev| {
        assert r[i] == r[..|prev|][i] == prev[i];
      } else {
        forall k | 0 <= k < |init| ensures Lower(init[k].name) != Lower(x.name) {
          assert init[k] == items[k];
        }
        QuantityForAbsent(init, Lower(x.name));
      }
    }
  }

  /**
   * The merge invariant for any sequence of adds onto an empty list, when
   * every candidate carries a non-zero number (as every caller in the
   * application supplies): no two entries share a name, and each entry's
   * quantity is the sum of the quantities of the adds with its name.
   */
  lemma {:induction false} MergeInvariant(items: seq<Item>, ids: seq<int>)
    requires |items| == |ids|
    requires forall k :: 0 <= k < |items| ==> items[k].quantity.Num? && items[k].quantity.n != 0
    ensures var r := AddMany([], items, ids);
      && NamesDistinct(r)
      && forall i :: 0 <= i < |r| ==> r[i].quantity == Num(QuantityFor(items, Lower(r[i].name)))
  {
    if items != [] {
      var n := |items| - 1;
      var init := items[..n];
      assert forall k :: 0 <= k < |init| ==> init[k] == items[k];
      var prev := AddMany([], init, ids[..n]);
      MergeInvariant(init, ids[..n]);
      AddManyKeepsNames([], init, ids[..n]);
      MergeStep(prev, items, ids[n]);
    }
  }

  /** One add of `MergeInvariant`'s induction, on a list that already holds every earlier name. */
  lemma MergeStep(prev: seq<Entry>, items: seq<Item>, id: int)
    requires items != [] && NamesDistinct(prev) && QuantitiesSum(prev, items[..|items| - 1])
    requires items[|items| - 1].quantity.Num? && items[|items| - 1].quantity.n != 0
    requires forall k :: 0 <= k < |items| - 1 ==> HasName(prev, items[k].name)
    ensures NamesDistinct(AddItem(prev, items[|items| - 1], id))
    ensures QuantitiesSum(AddItem(prev, items[|items| - 1], id), items)
  {
    AddKeepsNamesDistinct(prev, items[|items| - 1], id);
    if HasName(prev, items[|items| - 1].name) {
      MergeStepExisting(prev, items, id);
    } else {
      MergeStepNew(prev, items, id);
    }
  }

  /** The scenario "add Tomato x2, then tomato x3" leaves one entry "Tomato" x5. */
  lemma TomatoScenario(t1: int, t2: int)
    ensures AddItem(AddItem([], Item("Tomato", Num(2), None, None, None), t1),
                    Item("tomato", Num(3), None, None, None), t2)
         == [Entry(t1, "Tomato", Num(5), None, None, None)]
  {
    var first := AddItem([], Item("Tomato", Num(2), None, None, None), t1);
    assert first == [Entry(t1, "Tomato", Num(2), None, None, None)];
    assert Lower("tomato") == Lower("Tomato");
    assert SameName(Item("tomato", Num(3), None, None, None))(first[0]);
  }

  /**
   * The append path does not default the quantity: a candidate without one
   * is stored with quantity undefined, and a later add of the same name then
   * makes it NaN (undefined plus a number), not 1 plus that number.
   */
  lemma AbsentQuantityNotDefaulted(name: string, k: int, t1: int, t2: int)
    ensures AddItem([], Item(name, Undefined, None, None, None), t1)
         == [Entry(t1, name, Undefined, None, None, None)]
    ensures AddItem(AddItem([], Item(name, Undefined, None, None, None), t1),
                    Item(name, Num(k), None, None, None), t2)
         == [Entry(t1, name, NaN, None, None, None)]
  {
    var first := AddItem([], Item(name, Undefined, None, None, None), t1);
    assert first == [Entry(t1, name, Undefined, None, None, None)];
    assert SameName(Item(name, Num(k), None, None, None))(first[0]);
  }

  /** The test `item.id !== id`. */
  function IdIsNot(id: int): Entry -> bool {
    (e: Entry) => e.id != id
  }

  /** The updater of `removeFromShoppingList`: drop every entry carrying `id`. */
  function RemoveById(list: seq<Entry>, id: int): (r: seq<Entry>)
    ensures |r| <= |list|
    ensures IdAbsent(r, id)
  {
    Filter(list, IdIsNot(id))
  }

  /**
   * Removing keeps exactly the entries with another id, in their original
   * order.
   */
  lemma RemoveKeepsOthers(list: seq<Entry>, id: int)
    ensures var r := RemoveById(list, id);
      && IsSubsequence(r, list)
      && IdAbsent(r, id)
      && (forall e :: e in r <==> e in list && e.id != id)
      && forall e :: multiset(r)[e] == if e.id != id then multiset(list)[e] else 0
  {
    FilterIsSubsequence(list, IdIsNot(id));
    FilterMembers(list, IdIsNot(id));
    FilterMultiset(list, IdIsNot(id));
  }

  /** Removing an id no entry has leaves the list unchanged. */
  lemma RemoveAbsent(list: seq<Entry>, id: int)
    requires IdAbsent(list, id)
    ensures RemoveById(list, id) == list
  {
    FilterAll(list, IdIsNot(id));
  }

  /** Removing twice is removing once. */
  lemma RemoveIdempotent(list: seq<Entry>, id: int)
    ensures RemoveById(RemoveById(list, id), id) == RemoveById(list, id)
  {
    FilterIdempotent(list, IdIsNot(id));
  }

  /** `{ ...item, ...updates }`: the patch's fields win, the entry's others stay. */
  function ApplyPatch(e: Entry, p: Patch): (r: Entry)
    ensures p == EmptyPatch ==> r == e
    ensures p.id.None? ==> r.id == e.id
  {
    Entry(
      p.id.GetOr(e.id),
      p.name.GetOr(e.name),
      p.quantity.GetOr(e.quantity),
      p.unit.GetOr(e.unit),
      p.recipeId.GetOr(e.recipeId),
      p.recipeName.GetOr(e.recipeName))
  }

  /** The updater of `updateShoppingListItem`: patch every entry carrying `id`. */
  function UpdateById(list: seq<Entry>, id: int, patch: Patch): (r: seq<Entry>)
    ensures |r| == |list|
    ensures forall i :: 0 <= i < |list| && list[i].id != id ==> r[i] == list[i]
  {
    seq(|list|, i requires 0 <= i < |list| =>
      if list[i].id == id then ApplyPatch(list[i], patch) else list[i])
  }

  /**
   * An update keeps length and order, leaves entries with another id
   * untouched, and on entries with `id` overwrites exactly the fields the
   * patch carries.
   */
  lemma UpdateFields(list: seq<Entry>, id: int, patch: Patch)
    ensures var r := UpdateById(list, id, patch);
      && |r| == |list|
      && (forall i :: 0 <= i < |list| && list[i].id != id ==> r[i] == list[i])
      && (forall i :: 0 <= i < |list| && list[i].id == id ==>
            && (patch.id.Some? ==> r[i].id == patch.id.value)
            && (patch.id.None? ==> r[i].id == id)
            && (patch.name.Some? ==> r[i].name == patch.name.value)
            && (patch.name.None? ==> r[i].name == list[i].name)
            && (patch.quantity.Some? ==> r[i].quantity == patch.quantity.value)
            && (patch.quantity.None? ==> r[i].quantity == list[i].quantity)
            && (patch.unit.Some? ==> r[i].unit == patch.unit.value)
            && (patch.unit.None? ==> r[i].unit == list[i].unit)
            && (patch.recipeId.Some? ==> r[i].recipeId == patch.recipeId.value)
            && (patch.recipeId.None? ==> r[i].recipeId == list[i].recipeId)
            && (patch.recipeName.Some? ==> r[i].recipeName == patch.recipeName.value)
            && (patch.recipeName.None? ==> r[i].recipeName == list[i].recipeName))
  {
  }

  /** Updating an id no entry has leaves the list unchanged; so does the empty patch. */
  lemma UpdateNoOp(list: seq<Entry>, id: int, patch: Patch)
    requires IdAbsent(list, id) || patch == EmptyPatch
    ensures UpdateById(list, id, patch) == list
  {
  }

  /**
   * Update does not merge: renaming one of two distinct entries to the
   * other's name (in another case) leaves two entries with the same name.
   */
  lemma RenameMakesDuplicate(a: Entry, b: Entry)
    requires a.id != b.id
    requires Lower(a.name) != Lower(b.name)
    ensures NamesDistinct([a, b])
    ensures !NamesDistinct(UpdateById([a, b], b.id, EmptyPatch.(name := Some(Lower(a.name)))))
  {
    var r := UpdateById([a, b], b.id, EmptyPatch.(name := Some(Lower(a.name))));
    assert r[0] == a;
    assert r[1].name == Lower(a.name);
    LowerIdempotent(a.name);
  }

  /** Who wrote a chat message (`type` in the source). */
  datatype Role = User | Ai

  /** A message handed to `addChatMessage`, before it is stamped. */
  datatype Draft = Draft(role: Role, content: string)

  /** A message of the chat log. */
  datatype Message = Message(id: int, role: Role, content: string)

  /** The updater of `addChatMessage`: stamp the message and append it. */
  function AppendMessage(log: seq<Message>, draft: Draft, id: int): (r: seq<Message>)
    ensures |r| == |log| + 1 && r[..|log|] == log
  {
    log + [Message(id, draft.role, draft.content)]
  }

  /**
   * Appending adds exactly one message, at the end, carrying the draft's
   * role and content and the new id; the earlier log is an unchanged prefix.
   */
  lemma AppendMessageAtEnd(log: seq<Message>, draft: Draft, id: int)
    ensures var r := AppendMessage(log, draft, id);
      && |r| == |log| + 1
      && r[..|log|] == log
      && r[|log|].id == id
      && r[|log|].role == draft.role
      && r[|log|].content == draft.content
  {
  }

  /** The provider's state, changed only through the four operations below. */
  class Store {
    var shoppingList: seq<Entry>
    var chatHistory: seq<Message>

    /** Both pieces of state start empty (`useState([])`). */
    constructor ()
      ensures shoppingList == [] && chatHistory == []
    {
      shoppingList := [];
      chatHistory := [];
    }

    /** `addToShoppingList(item)`, stamped with the clock reading `now`. */
    method AddToShoppingList(item: Item, now: int)
      modifies this
      ensures shoppingList == AddItem(old(shoppingList), item, now)
      ensures HasName(shoppingList, item.name)
      ensures NamesDistinct(old(shoppingList)) ==> NamesDistinct(shoppingList)
      ensures IdsDistinct(old(shoppingList)) && IdAbsent(old(shoppingList), now) ==> IdsDistinct(shoppingList)
      ensures chatHistory == old(chatHistory)
    {
      AddKeepsNames(shoppingList, item, now);
      if NamesDistinct(shoppingList) {
        AddKeepsNamesDistinct(shoppingList, item, now);
      }
      if IdsDistinct(shoppingList) && IdAbsent(shoppingList, now) {
        AddFreshIdKeepsIdsDistinct(shoppingList, item, now);
      }
      shoppingList := AddItem(shoppingList, item, now);
    }

    /** `removeFromShoppingList(id)`. */
    method RemoveFromShoppingList(id: int)
      modifies this
      ensures shoppingList == RemoveById(old(shoppingList), id)
      ensures IdAbsent(shoppingList, id)
      ensures chatHistory == old(chatHistory)
    {
      RemoveKeepsOthers(shoppingList, id);
      shoppingList := RemoveById(shoppingList, id);
    }

    /** `updateShoppingListItem(id, updates)`. */
    method UpdateShoppingListItem(id: int, patch: Patch)
      modifies this
      ensures shoppingList == UpdateById(old(shoppingList), id, patch)
      ensures |shoppingList| == |old(shoppingList)|
      ensures chatHistory == old(chatHistory)
    {
      shoppingList := UpdateById(shoppingList, id, patch);
    }

    /** `addChatMessage(message)`, stamped with the clock reading `now`. */
    method AddChatMessage(draft: Draft, now: int)
      modifies this
      ensures chatHistory == AppendMessage(old(chatHistory), draft, now)
      ensures chatHistory[..|old(chatHistory)|] == old(chatHistory)
      ensures shoppingList == old(shoppingList)
    {
      chatHistory := AppendMessage(chatHistory, draft, now);
    }
  }
}
