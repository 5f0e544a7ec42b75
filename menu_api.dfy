/** The target menu API, as the inflater sees it: it only ever issues creation calls
    (`add`, `addSubMenu`, `setActionView`) and never reads the menu back. A menu graph
    is therefore modelled by the log of calls made on it, with the handles it hands out. */
module MenuApi {
  import opened Resources

  /** A menu handle; 0 is the root menu of a fresh graph, each submenu gets the next one. */
  type MenuId = nat
  /** An item handle; items are numbered in the order they are added. */
  type ItemId = nat

  datatype Call =
    | Add(menu: MenuId, groupId: int, itemId: int, order: int, title: Option<string>, item: ItemId)
    | AddSubMenu(menu: MenuId, groupId: int, itemId: int, order: int, title: Option<string>, sub: MenuId)
    | SetActionView(item: ItemId, view: View)

  /** Number of `add` calls in a log. */
  function AddCount(calls: seq<Call>): nat
  {
    if calls == [] then 0 else AddCount(calls[..|calls| - 1]) + (if calls[|calls| - 1].Add? then 1 else 0)
  }

  /** Number of `addSubMenu` calls in a log. */
  function SubMenuCount(calls: seq<Call>): nat
  {
    if calls == [] then 0 else SubMenuCount(calls[..|calls| - 1]) + (if calls[|calls| - 1].AddSubMenu? then 1 else 0)
  }

  lemma {:induction false} CountsOfConcat(a: seq<Call>, b: seq<Call>)
    ensures AddCount(a + b) == AddCount(a) + AddCount(b)
    ensures SubMenuCount(a + b) == SubMenuCount(a) + SubMenuCount(b)
    decreases |b|
  {
    if b == [] {
      assert a + b == a;
    } else {
      var b' := b[..|b| - 1];
      assert (a + b)[..|a + b| - 1] == a + b';
      CountsOfConcat(a, b');
    }
  }

  /** Each call agrees with the calls before it: an addSubMenu hands out the next menu
      handle (the root is 0), an add hands out the next item handle, and every add and
      addSubMenu targets the root or a submenu handed out earlier. */
  ghost predicate CreatedInOrder(calls: seq<Call>)
  {
    calls == []
    || (var last, before := calls[|calls| - 1], calls[..|calls| - 1];
        && CreatedInOrder(before)
        && (!last.SetActionView? ==> last.menu <= SubMenuCount(before))
        && (last.AddSubMenu? ==> last.sub == 1 + SubMenuCount(before))
        && (last.Add? ==> last.item == AddCount(before)))
  }

  /** In a log created in order, every submenu handle up to the number of addSubMenu
      calls was handed out by one of them. */
  lemma {:induction false} SubMenuHandedOut(calls: seq<Call>, m: nat)
    requires CreatedInOrder(calls) && 1 <= m <= SubMenuCount(calls)
    ensures exists j | 0 <= j < |calls| :: calls[j].AddSubMenu? && calls[j].sub == m
    decreases |calls|
  {
    var before := calls[..|calls| - 1];
    if m <= SubMenuCount(before) {
      SubMenuHandedOut(before, m);
      var j :| 0 <= j < |before| && before[j].AddSubMenu? && before[j].sub == m;
      assert calls[j] == before[j];
    } else {
      assert calls[|calls| - 1].AddSubMenu?;
    }
  }

  /** Read call by call: the k-th call took the handle its position gives it, and an add
      or addSubMenu targets the root or a submenu handed out by an earlier call. */
  lemma {:induction false} TargetExistedBefore(calls: seq<Call>, k: nat)
    requires CreatedInOrder(calls) && k < |calls|
    ensures calls[k].AddSubMenu? ==> calls[k].sub == 1 + SubMenuCount(calls[..k])
    ensures calls[k].Add? ==> calls[k].item == AddCount(calls[..k])
    ensures !calls[k].SetActionView? ==>
              calls[k].menu == 0
              || exists j | 0 <= j < k :: calls[j].AddSubMenu? && calls[j].sub == calls[k].menu
    decreases |calls|
  {
    var before := calls[..|calls| - 1];
    if k < |calls| - 1 {
      assert before[k] == calls[k] && before[..k] == calls[..k];
      TargetExistedBefore(before, k);
      if !calls[k].SetActionView? && calls[k].menu != 0 {
        var j :| 0 <= j < k && before[j].AddSubMenu? && before[j].sub == calls[k].menu;
        assert calls[j] == before[j];
      }
    } else {
      assert before == calls[..k];
      if !calls[k].SetActionView? && calls[k].menu != 0 {
        SubMenuHandedOut(before, calls[k].menu);
        var j :| 0 <= j < |before| && before[j].AddSubMenu? && before[j].sub == calls[k].menu;
        assert calls[j] == before[j];
      }
    }
  }

  /** A menu-graph state: the calls made so far, and the next menu and item handles. */
  datatype Log = Log(calls: seq<Call>, menus: nat, items: nat) {

    /** The next handles are the counts of calls so far, the calls were created in order
        (each took the next handle and targets a menu that existed when it was made), and
        every action view goes to the item added just before it. */
    ghost predicate Valid()
    {
      && menus == 1 + SubMenuCount(calls)
      && items == AddCount(calls)
      && (forall k | 0 <= k < |calls| :: calls[k].Add? ==> calls[k].menu < menus)
      && (forall k | 0 <= k < |calls| :: calls[k].AddSubMenu? ==> calls[k].menu < calls[k].sub < menus)
      && CreatedInOrder(calls)
      && (forall k | 0 <= k < |calls| :: calls[k].SetActionView? ==>
            0 < k && calls[k - 1].Add? && calls[k - 1].item == calls[k].item)
    }

    /** The state after `menu.add(...)`; the new item's handle is `items`. */
    function WithAdd(menu: MenuId, groupId: int, itemId: int, order: int, title: Option<string>): (r: Log)
      ensures r.menus == menus && r.items == items + 1
      ensures Valid() && menu < menus ==> r.Valid()
    {
      var r := Log(calls + [Add(menu, groupId, itemId, order, title, items)], menus, items + 1);
      AppendKeepsValid(this, Add(menu, groupId, itemId, order, title, items));
      r
    }

    /** The state after `menu.addSubMenu(...)`; the new submenu's handle is `menus`. */
    function WithSubMenu(menu: MenuId, groupId: int, itemId: int, order: int, title: Option<string>): (r: Log)
      ensures r.menus == menus + 1 && r.items == items
      ensures Valid() && menu < menus ==> r.Valid()
    {
      var r := Log(calls + [AddSubMenu(menu, groupId, itemId, order, title, menus)], menus + 1, items);
      AppendKeepsValid(this, AddSubMenu(menu, groupId, itemId, order, title, menus));
      r
    }

    /** The state after `item.setActionView(view)`. */
    function WithActionView(item: ItemId, view: View): (r: Log)
      ensures r.menus == menus && r.items == items
      ensures Valid() && calls != [] && calls[|calls| - 1].Add? && calls[|calls| - 1].item == item ==> r.Valid()
    {
      var r := Log(calls + [SetActionView(item, view)], menus, items);
      AppendKeepsValid(this, SetActionView(item, view));
      r
    }
  }

  /** A call that may come next: an add or addSubMenu targets an existing menu and takes
      the next handle, an action view goes to the item added just before. */
  predicate Appendable(log: Log, c: Call)
  {
    match c
    case Add(menu, _, _, _, _, item) => menu < log.menus && item == log.items
    case AddSubMenu(menu, _, _, _, _, sub) => menu < log.menus && sub == log.menus
    case SetActionView(item, _) =>
      log.calls != [] && log.calls[|log.calls| - 1].Add? && log.calls[|log.calls| - 1].item == item
  }

  /** Appending such a call keeps a well-formed log well formed. */
  lemma AppendKeepsValid(log: Log, c: Call)
    ensures log.Valid() && Appendable(log, c) ==>
              Log(log.calls + [c], log.menus + (if c.AddSubMenu? then 1 else 0),
                  log.items + (if c.Add? then 1 else 0)).Valid()
  {
    if log.Valid() && Appendable(log, c) {
      AppendedIsValid(log, c);
    }
  }

  lemma AppendedIsValid(log: Log, c: Call)
    requires log.Valid() && Appendable(log, c)
    ensures Log(log.calls + [c], log.menus + (if c.AddSubMenu? then 1 else 0),
                log.items + (if c.Add? then 1 else 0)).Valid()
  {
    var calls := log.calls + [c];
    var r := Log(calls, log.menus + (if c.AddSubMenu? then 1 else 0), log.items + (if c.Add? then 1 else 0));
    CountsOfConcat(log.calls, [c]);
    assert [c][..0] == [];
    assert calls[..|calls| - 1] == log.calls;
    assert r.menus == 1 + SubMenuCount(calls) && r.items == AddCount(calls);
    assert CreatedInOrder(calls);
    forall k | 0 <= k < |calls|
      ensures calls[k].Add? ==> calls[k].menu < r.menus
      ensures calls[k].AddSubMenu? ==> calls[k].menu < calls[k].sub < r.menus
      ensures calls[k].SetActionView? ==> 0 < k && calls[k - 1].Add? && calls[k - 1].item == calls[k].item
    {
      if k < |log.calls| {
        assert calls[k] == log.calls[k];
      }
    }
  }

  /** Logs whose handles are all below the final counts, but were not handed out in
      order, are not well formed. Here an add reaches submenu 1 before the addSubMenu
      creating it. */
  lemma AddBeforeItsSubMenuIsInvalid()
    ensures !Log([Add(1, 0, 0, 0, None, 0), AddSubMenu(0, 0, 0, 0, None, 1)], 2, 1).Valid()
  {
    var calls := [Add(1, 0, 0, 0, None, 0), AddSubMenu(0, 0, 0, 0, None, 1)];
    assert calls[..1][..0] == [];
    assert calls[..1] == [Add(1, 0, 0, 0, None, 0)];
  }

  /** Two submenus sharing handle 1 (followed by an add to menu 2, which no call created). */
  lemma SharedSubMenuHandleIsInvalid()
    ensures !Log([AddSubMenu(0, 0, 0, 0, None, 1), AddSubMenu(0, 0, 0, 0, None, 1), Add(2, 0, 0, 0, None, 0)], 3, 1).Valid()
  {
    var first := [AddSubMenu(0, 0, 0, 0, None, 1)];
    var two := first + first;
    var calls := two + [Add(2, 0, 0, 0, None, 0)];
    assert first[..0] == [] && two[..1] == first && calls[..2] == two;
    assert SubMenuCount(first) == 1;
    assert !CreatedInOrder(two);
  }

  /** An item handle that skips ahead of the number of earlier adds. */
  lemma SkippedItemHandleIsInvalid()
    ensures !Log([Add(0, 0, 0, 0, None, 5), SetActionView(5, 0)], 1, 1).Valid()
  {
    var first := [Add(0, 0, 0, 0, None, 5)];
    var calls := first + [SetActionView(5, 0)];
    assert first[..0] == [] && calls[..1] == first;
    assert AddCount(first[..0]) == 0;
    assert !CreatedInOrder(first);
    assert !CreatedInOrder(calls);
    assert calls == [Add(0, 0, 0, 0, None, 5), SetActionView(5, 0)];
  }

  /** A menu graph, as a recorder of the creation calls made on it. */
  class MenuGraph {
    var calls: seq<Call>
    var menus: nat
    var items: nat

    function State(): Log
      reads this
    {
      Log(calls, menus, items)
    }

    ghost predicate Valid()
      reads this
    {
      State().Valid()
    }

    /** A graph holding only its empty root menu, handle 0. */
    constructor ()
      ensures Valid() && State() == Log([], 1, 0)
    {
      calls, menus, items := [], 1, 0;
    }

    method Add(menu: MenuId, groupId: int, itemId: int, order: int, title: Option<string>) returns (item: ItemId)
      requires Valid() && menu < menus
      modifies this
      ensures Valid()
      ensures item == old(items)
      ensures State() == old(State()).WithAdd(menu, groupId, itemId, order, title)
    {
      var next := State().WithAdd(menu, groupId, itemId, order, title);
      item := items;
      calls, menus, items := next.calls, next.menus, next.items;
    }

    method AddSubMenu(menu: MenuId, groupId: int, itemId: int, order: int, title: Option<string>) returns (sub: MenuId)
      requires Valid() && menu < menus
      modifies this
      ensures Valid()
      ensures sub == old(menus)
      ensures State() == old(State()).WithSubMenu(menu, groupId, itemId, order, title)
    {
      var next := State().WithSubMenu(menu, groupId, itemId, order, title);
      sub := menus;
      calls, menus, items := next.calls, next.menus, next.items;
    }

    method SetActionView(item: ItemId, view: View)
      requires Valid() && calls != [] && calls[|calls| - 1].Add? && calls[|calls| - 1].item == item
      modifies this
      ensures Valid()
      ensures State() == old(State()).WithActionView(item, view)
    {
      var next := State().WithActionView(item, view);
      calls, menus, items := next.calls, next.menus, next.items;
    }
  }
}
