/**
 * `SelectionManager`: a list of named items with one active index. Stepping
 * is circular. The overridable hook `onActiveChanged` is modelled by a
 * counter of how often it fired.
 */
module Selections {
  import opened MathUtils
  import opened Wrappers

  /** `InfoWrapper`: a named, described object. */
  datatype Item<T> = Item(name: string, description: string, obj: T)

  /** The exceptions the manager throws. */
  datatype SelectionError = IndexOutOfBounds(index: int, size: int) | NoSuchName(name: string)

  /** The index of the first item named `name`, or -1. */
  function FirstNamed<T>(items: seq<Item<T>>, name: string): int
  {
    if |items| == 0 then -1
    else if items[0].name == name then 0
    else
      var r := FirstNamed(items[1..], name);
      if r == -1 then -1 else r + 1
  }

  /** `FirstNamed` is -1 exactly when no item has the name, and otherwise the first index that has it. */
  lemma {:induction false} FirstNamedMeaning<T>(items: seq<Item<T>>, name: string)
    ensures var r := FirstNamed(items, name);
      -1 <= r < |items|
      && (r == -1 <==> forall k :: 0 <= k < |items| ==> items[k].name != name)
      && (r >= 0 ==> items[r].name == name && forall k :: 0 <= k < r ==> items[k].name != name)
  {
    if |items| > 0 && items[0].name != name {
      FirstNamedMeaning(items[1..], name);
      var r := FirstNamed(items[1..], name);
      assert forall k :: 1 <= k < |items| ==> items[k] == items[1..][k - 1];
      if r == -1 {
        forall k | 0 <= k < |items| ensures items[k].name != name {
          if k > 0 {
            assert items[k] == items[1..][k - 1];
          }
        }
      }
    }
  }

  class SelectionManager<T> {
    var items: seq<Item<T>>
    var activeIndex: int
    /** How many times `onActiveChanged` has fired. */
    var changes: nat

    /** The active index points at an item. */
    ghost predicate Valid()
      reads this
    {
      0 <= activeIndex < |items|
    }

    /** The field initialisers: no items, index 0. */
    constructor Empty()
      ensures items == [] && activeIndex == 0 && changes == 0
    {
      items, activeIndex, changes := [], 0, 0;
    }

    /**
     * The public constructor: it throws (here: null) when the provider yields
     * no items, and otherwise adds them all, firing the hook once.
     */
    static method Create(provided: seq<Item<T>>) returns (m: SelectionManager?<T>)
      ensures m == null <==> provided == []
      ensures m != null ==> fresh(m) && m.Valid() && m.items == provided && m.activeIndex == 0 && m.changes == 1
    {
      if provided == [] {
        return null;
      }
      m := new SelectionManager.Empty();
      m.AddAll(provided);
    }

    /** The active item. */
    function Active(): Item<T>
      requires Valid()
      reads this
    {
      items[activeIndex]
    }

    /**
     * `setActive(int)`: an index out of range throws and changes nothing;
     * otherwise the index becomes active and the hook fires if it differs
     * from the current one.
     */
    method SetActive(i: int) returns (r: Outcome<SelectionError>)
      modifies this`activeIndex, this`changes
      ensures !(0 <= i < |items|) ==>
        r == Fail(IndexOutOfBounds(i, |items|)) && activeIndex == old(activeIndex) && changes == old(changes)
      ensures 0 <= i < |items| ==>
        r == Pass && activeIndex == i && Valid()
        && changes == old(changes) + (if i != old(activeIndex) then 1 else 0)
    {
      if i < 0 || i >= |items| {
        return Fail(IndexOutOfBounds(i, |items|));
      }
      if i != activeIndex {
        activeIndex := i;
        changes := changes + 1;
      }
      r := Pass;
    }

    /** `setActive(String)`: the first item with that name becomes active; an unknown name throws. */
    method SetActiveByName(name: string) returns (r: Outcome<SelectionError>)
      modifies this`activeIndex, this`changes
      ensures (forall k :: 0 <= k < |items| ==> items[k].name != name) ==>
        r == Fail(NoSuchName(name)) && activeIndex == old(activeIndex) && changes == old(changes)
      ensures (exists k :: 0 <= k < |items| && items[k].name == name) ==>
        r == Pass && Valid() && items[activeIndex].name == name
        && (forall k :: 0 <= k < activeIndex ==> items[k].name != name)
        && changes == old(changes) + (if activeIndex != old(activeIndex) then 1 else 0)
    {
      var i := GetIndexByName(name);
      if i == -1 {
        return Fail(NoSuchName(name));
      }
      r := SetActive(i);
    }

    /** `step`: the active index moves `step` places, circularly. */
    method Step(step: int)
      requires Valid()
      modifies this`activeIndex, this`changes
      ensures Valid() && activeIndex == (old(activeIndex) + step) % |items|
      ensures changes == old(changes) + (if activeIndex != old(activeIndex) then 1 else 0)
    {
      var i := Modulo(activeIndex + step, |items|);
      var r := SetActive(i);
    }

    /** `stepForward`: one place on, from the last item back to the first. */
    method StepForward()
      requires Valid()
      modifies this`activeIndex, this`changes
      ensures Valid() && activeIndex == if old(activeIndex) == |items| - 1 then 0 else old(activeIndex) + 1
    {
      Step(1);
    }

    /** `stepBackward`: one place back, from the first item to the last. */
    method StepBackward()
      requires Valid()
      modifies this`activeIndex, this`changes
      ensures Valid() && activeIndex == if old(activeIndex) == 0 then |items| - 1 else old(activeIndex) - 1
    {
      Step(-1);
    }

    /** `add`: the item goes at the end; the hook fires only if the list was empty. */
    method Add(item: Item<T>)
      modifies this`items, this`changes
      ensures items == old(items) + [item]
      ensures changes == old(changes) + (if old(items) == [] then 1 else 0)
      ensures old(Valid()) ==> Valid()
    {
      var wasEmpty := |items| == 0;
      items := items + [item];
      if wasEmpty {
        changes := changes + 1;
      }
    }

    /** `addAll`: the items go at the end in order; the hook fires only if the list was empty. */
    method AddAll(more: seq<Item<T>>)
      modifies this`items, this`changes
      ensures items == old(items) + more
      ensures changes == old(changes) + (if old(items) == [] then 1 else 0)
      ensures old(Valid()) ==> Valid()
      ensures old(items) == [] && activeIndex == 0 && more != [] ==> Valid()
    {
      var wasEmpty := |items| == 0;
      items := items + more;
      if wasEmpty {
        changes := changes + 1;
      }
    }

    /** `getIndexByName`: the index of the first item with that name, or -1 if there is none. */
    method GetIndexByName(name: string) returns (i: int)
      ensures -1 <= i < |items|
      ensures i == -1 <==> forall k :: 0 <= k < |items| ==> items[k].name != name
      ensures i >= 0 ==> items[i].name == name && forall k :: 0 <= k < i ==> items[k].name != name
      ensures i == FirstNamed(items, name)
    {
      FirstNamedMeaning(items, name);
      i := 0;
      while i < |items|
        invariant 0 <= i <= |items|
        invariant forall k :: 0 <= k < i ==> items[k].name != name
      {
        if items[i].name == name {
          return;
        }
        i := i + 1;
      }
      i := -1;
    }

    /** `hasName`: some item has exactly that name. */
    method HasName(name: string) returns (b: bool)
      ensures b <==> exists k :: 0 <= k < |items| && items[k].name == name
    {
      var i := GetIndexByName(name);
      b := i != -1;
    }
  }
}
