/** Properties of the inflation walk: the calls it makes are a pre-order traversal of the
    tree (stated against a separate, compositional definition), counts of created items
    and submenus, group scoping, error propagation and classification, and that the
    menu graph only ever grows and stays well formed. */
module InflationProperties {
  import opened Resources
  import opened MenuApi
  import opened Inflation

  // ---------------------------------------------------------------------------
  // What a walk creates, node by node

  /** Number of items the children of `source` from the i-th on create. */
  function ItemsFrom(source: Node, i: nat): nat
    requires i <= |source.children|
    decreases source, |source.children| - i
  {
    if i == |source.children| then 0 else ItemsOf(source.children[i]) + ItemsFrom(source, i + 1)
  }

  /** Number of items a child creates: one per plain item, whatever its submenu or group holds. */
  function ItemsOf(child: Node): nat
    decreases child, |child.children| + 1
  {
    if child.name == "item" then
      if child.isSubMenuItem then (if |child.children| == 0 then 0 else ItemsFrom(child.children[0], 0))
      else 1
    else if child.name == "group" then ItemsFrom(child, 0)
    else 0
  }

  /** Number of submenus the children of `source` from the i-th on create. */
  function SubMenusFrom(source: Node, i: nat): nat
    requires i <= |source.children|
    decreases source, |source.children| - i
  {
    if i == |source.children| then 0 else SubMenusOf(source.children[i]) + SubMenusFrom(source, i + 1)
  }

  function SubMenusOf(child: Node): nat
    decreases child, |child.children| + 1
  {
    if child.name == "item" then
      if child.isSubMenuItem then 1 + (if |child.children| == 0 then 0 else SubMenusFrom(child.children[0], 0))
      else 0
    else if child.name == "group" then SubMenusFrom(child, 0)
    else 0
  }

  /** The title a plain item receives when its resolution succeeds. */
  function ResolvedTitle(ctx: Context, attrs: Attrs): Option<string>
  {
    match ItemTitle(ctx, attrs)
    case Ok(title) => title
    case Fail(_) => None  // not reached on a successful walk
  }

  function ExpectedActionView(ctx: Context, attrs: Attrs, item: ItemId): seq<Call>
  {
    match AttributeValue(attrs, "actionViewClass")
    case None => []
    case Some(className) =>
      match ctx.newActionView(className)
      case Some(view) => [SetActionView(item, view)]
      case None => []  // not reached on a successful walk
  }

  /** Reference definition: the calls a successful walk over the children of `source`
      from the i-th on makes, as the concatenation of each child's calls in declaration
      order, when the next free submenu handle is `m` and the next item handle `it`. */
  function ExpectedWalk(ctx: Context, source: Node, i: nat, groupId: int, target: MenuId, m: nat, it: nat): seq<Call>
    requires i <= |source.children|
    decreases source, |source.children| - i
  {
    if i == |source.children| then []
    else
      var child := source.children[i];
      ExpectedVisit(ctx, child, groupId, target, m, it)
        + ExpectedWalk(ctx, source, i + 1, groupId, target, m + SubMenusOf(child), it + ItemsOf(child))
  }

  /** The calls one child contributes: a submenu item adds its submenu (literal title,
      order 0) and then its first child's children into it, in the same group; a plain
      item adds itself and maybe its action view; a group hands its own id to its
      children only; anything else contributes nothing. */
  function ExpectedVisit(ctx: Context, child: Node, groupId: int, target: MenuId, m: nat, it: nat): seq<Call>
    decreases child, |child.children| + 1
  {
    var attrs := child.attrs;
    if child.name == "item" then
      if child.isSubMenuItem then
        [AddSubMenu(target, groupId, AttributeResourceValue(ctx, attrs, "id", 0), 0, AttributeValue(attrs, "title"), m)]
          + (if |child.children| == 0 then [] else ExpectedWalk(ctx, child.children[0], 0, groupId, m, m + 1, it))
      else
        [Add(target, groupId, AttributeResourceValue(ctx, attrs, "id", 0),
             AttributeIntValue(ctx, attrs, "orderInCategory", 0), ResolvedTitle(ctx, attrs), it)]
          + ExpectedActionView(ctx, attrs, it)
    else if child.name == "group" then ExpectedWalk(ctx, child, 0, GroupIdOf(ctx, child), target, m, it)
    else []
  }

  // ---------------------------------------------------------------------------
  // Pre-order and counts

  /** A successful walk makes exactly the reference calls, in order, and hands out one
      menu handle per submenu and one item handle per plain item. */
  lemma {:induction false} WalkIsPreorder(ctx: Context, source: Node, i: nat, groupId: int, target: MenuId, log: Log)
    requires i <= |source.children|
    requires Walk(ctx, source, i, groupId, target, log).err.None?
    ensures Walk(ctx, source, i, groupId, target, log).log
         == Log(log.calls + ExpectedWalk(ctx, source, i, groupId, target, log.menus, log.items),
                log.menus + SubMenusFrom(source, i), log.items + ItemsFrom(source, i))
    decreases source, |source.children| - i
  {
    if i < |source.children| {
      var child := source.children[i];
      var r := Visit(ctx, child, groupId, target, log);
      VisitIsPreorder(ctx, child, groupId, target, log);
      WalkIsPreorder(ctx, source, i + 1, groupId, target, r.log);
      var e1 := ExpectedVisit(ctx, child, groupId, target, log.menus, log.items);
      var e2 := ExpectedWalk(ctx, source, i + 1, groupId, target, log.menus + SubMenusOf(child), log.items + ItemsOf(child));
      assert log.calls + e1 + e2 == log.calls + (e1 + e2);
    }
  }

  lemma {:induction false} VisitIsPreorder(ctx: Context, child: Node, groupId: int, target: MenuId, log: Log)
    requires Visit(ctx, child, groupId, target, log).err.None?
    ensures Visit(ctx, child, groupId, target, log).log
         == Log(log.calls + ExpectedVisit(ctx, child, groupId, target, log.menus, log.items),
                log.menus + SubMenusOf(child), log.items + ItemsOf(child))
    decreases child, |child.children| + 1
  {
    var attrs := child.attrs;
    if child.name == "item" {
      if child.isSubMenuItem {
        var log' := log.WithSubMenu(target, groupId, AttributeResourceValue(ctx, attrs, "id", 0), 0,
                                    AttributeValue(attrs, "title"));
        WalkIsPreorder(ctx, child.children[0], 0, groupId, log.menus, log');
        var e := ExpectedWalk(ctx, child.children[0], 0, groupId, log.menus, log.menus + 1, log.items);
        assert log'.calls + e == log.calls + (log'.calls[|log.calls|..] + e);
      }
    } else if child.name == "group" {
      WalkIsPreorder(ctx, child, 0, GroupIdOf(ctx, child), target, log);
    }
  }

  /** Counting the calls themselves: a successful walk on a well-formed graph adds one
      `add` per plain item and one `addSubMenu` per submenu item reachable from `source`. */
  lemma CreatedCounts(ctx: Context, source: Node, groupId: int, target: MenuId, log: Log)
    requires log.Valid() && target < log.menus
    requires Walk(ctx, source, 0, groupId, target, log).err.None?
    ensures var calls := Walk(ctx, source, 0, groupId, target, log).log.calls;
            && AddCount(calls) == AddCount(log.calls) + ItemsFrom(source, 0)
            && SubMenuCount(calls) == SubMenuCount(log.calls) + SubMenusFrom(source, 0)
  {
    var r := Walk(ctx, source, 0, groupId, target, log);
    WalkIsPreorder(ctx, source, 0, groupId, target, log);
    WalkPreservesValid(ctx, source, 0, groupId, target, log);
    CountsOfConcat(log.calls, ExpectedWalk(ctx, source, 0, groupId, target, log.menus, log.items));
  }

  // ---------------------------------------------------------------------------
  // The graph only grows, and stays well formed

  /** Calls already made are never taken back, not even when the walk fails, and handles
      only advance. */
  lemma {:induction false} WalkExtends(ctx: Context, source: Node, i: nat, groupId: int, target: MenuId, log: Log)
    requires i <= |source.children|
    ensures var r := Walk(ctx, source, i, groupId, target, log);
            |log.calls| <= |r.log.calls| && r.log.calls[..|log.calls|] == log.calls
            && log.menus <= r.log.menus && log.items <= r.log.items
    decreases source, |source.children| - i
  {
    if i < |source.children| {
      var r := Visit(ctx, source.children[i], groupId, target, log);
      VisitExtends(ctx, source.children[i], groupId, target, log);
      if r.err.None? {
        WalkExtends(ctx, source, i + 1, groupId, target, r.log);
        var r2 := Walk(ctx, source, i + 1, groupId, target, r.log);
        assert r2.log.calls[..|log.calls|] == r2.log.calls[..|r.log.calls|][..|log.calls|];
      }
    }
  }

  lemma {:induction false} VisitExtends(ctx: Context, child: Node, groupId: int, target: MenuId, log: Log)
    ensures var r := Visit(ctx, child, groupId, target, log);
            |log.calls| <= |r.log.calls| && r.log.calls[..|log.calls|] == log.calls
            && log.menus <= r.log.menus && log.items <= r.log.items
    decreases child, |child.children| + 1
  {
    var attrs := child.attrs;
    if RejectedByI18n(ctx, child) {
    } else if child.name == "item" {
      if child.isSubMenuItem {
        var log' := log.WithSubMenu(target, groupId, AttributeResourceValue(ctx, attrs, "id", 0), 0,
                                    AttributeValue(attrs, "title"));
        assert log'.calls[..|log.calls|] == log.calls;
        if |child.children| > 0 {
          WalkExtends(ctx, child.children[0], 0, groupId, log.menus, log');
          var r := Walk(ctx, child.children[0], 0, groupId, log.menus, log');
          assert r.log.calls[..|log.calls|] == r.log.calls[..|log'.calls|][..|log.calls|];
        }
      } else if ItemTitle(ctx, attrs).Ok? {
        var log' := log.WithAdd(target, groupId, AttributeResourceValue(ctx, attrs, "id", 0),
                                AttributeIntValue(ctx, attrs, "orderInCategory", 0), ItemTitle(ctx, attrs).value);
        assert log'.calls[..|log.calls|] == log.calls;
        var r := AttachActionView(ctx, attrs, log.items, log');
        assert r.log.calls[..|log.calls|] == r.log.calls[..|log'.calls|][..|log.calls|];
      }
    } else if child.name == "group" {
      WalkExtends(ctx, child, 0, GroupIdOf(ctx, child), target, log);
    }
  }

  /** Started on a well-formed graph and an existing target menu, a walk leaves the graph
      well formed: handles match the calls made, every call targets an existing menu,
      and every action view goes to the item added just before it. */
  lemma {:induction false} WalkPreservesValid(ctx: Context, source: Node, i: nat, groupId: int, target: MenuId, log: Log)
    requires i <= |source.children|
    requires log.Valid() && target < log.menus
    ensures Walk(ctx, source, i, groupId, target, log).log.Valid()
    decreases source, |source.children| - i
  {
    if i < |source.children| {
      var r := Visit(ctx, source.children[i], groupId, target, log);
      VisitPreservesValid(ctx, source.children[i], groupId, target, log);
      if r.err.None? {
        VisitExtends(ctx, source.children[i], groupId, target, log);
        WalkPreservesValid(ctx, source, i + 1, groupId, target, r.log);
      }
    }
  }

  lemma {:induction false} VisitPreservesValid(ctx: Context, child: Node, groupId: int, target: MenuId, log: Log)
    requires log.Valid() && target < log.menus
    ensures Visit(ctx, child, groupId, target, log).log.Valid()
    decreases child, |child.children| + 1
  {
    var attrs := child.attrs;
    if RejectedByI18n(ctx, child) {
    } else if child.name == "item" {
      if child.isSubMenuItem {
        var log' := log.WithSubMenu(target, groupId, AttributeResourceValue(ctx, attrs, "id", 0), 0,
                                    AttributeValue(attrs, "title"));
        if |child.children| > 0 {
          WalkPreservesValid(ctx, child.children[0], 0, groupId, log.menus, log');
        }
      }
    } else if child.name == "group" {
      WalkPreservesValid(ctx, child, 0, GroupIdOf(ctx, child), target, log);
    }
  }

  // ---------------------------------------------------------------------------
  // Group scoping

  /** A node with no "group" node anywhere in its subtree. */
  predicate GroupFree(n: Node)
    decreases n
  {
    n.name != "group" && forall c | c in n.children :: GroupFree(c)
  }

  /** Every `add` and `addSubMenu` call from index `from` on is made in group `groupId`. */
  ghost predicate AllInGroup(calls: seq<Call>, from: nat, groupId: int)
  {
    forall k | from <= k < |calls| :: !calls[k].SetActionView? ==> calls[k].groupId == groupId
  }

  /** Without a "group" node below it, everything a walk creates, submenu contents
      included, stays in the enclosing group. */
  lemma {:induction false} GroupIsInherited(ctx: Context, source: Node, i: nat, groupId: int, target: MenuId, log: Log)
    requires i <= |source.children|
    requires forall j | i <= j < |source.children| :: GroupFree(source.children[j])
    ensures AllInGroup(Walk(ctx, source, i, groupId, target, log).log.calls, |log.calls|, groupId)
    decreases source, |source.children| - i
  {
    if i < |source.children| {
      var r := Visit(ctx, source.children[i], groupId, target, log);
      VisitInGroup(ctx, source.children[i], groupId, target, log);
      if r.err.None? {
        VisitExtends(ctx, source.children[i], groupId, target, log);
        GroupIsInherited(ctx, source, i + 1, groupId, target, r.log);
        var r2 := Walk(ctx, source, i + 1, groupId, target, r.log);
        WalkExtends(ctx, source, i + 1, groupId, target, r.log);
        forall k | |log.calls| <= k < |r2.log.calls| && !r2.log.calls[k].SetActionView?
          ensures r2.log.calls[k].groupId == groupId
        {
          if k < |r.log.calls| {
            assert r2.log.calls[k] == r2.log.calls[..|r.log.calls|][k];
          }
        }
      }
    }
  }

  lemma {:induction false} VisitInGroup(ctx: Context, child: Node, groupId: int, target: MenuId, log: Log)
    requires GroupFree(child)
    ensures AllInGroup(Visit(ctx, child, groupId, target, log).log.calls, |log.calls|, groupId)
    decreases child, |child.children| + 1
  {
    var attrs := child.attrs;
    if RejectedByI18n(ctx, child) {
    } else if child.name == "item" {
      if child.isSubMenuItem {
        var log' := log.WithSubMenu(target, groupId, AttributeResourceValue(ctx, attrs, "id", 0), 0,
                                    AttributeValue(attrs, "title"));
        if |child.children| > 0 {
          var sub := child.children[0];
          assert GroupFree(sub);
          GroupIsInherited(ctx, sub, 0, groupId, log.menus, log');
          WalkExtends(ctx, sub, 0, groupId, log.menus, log');
          var r := Walk(ctx, sub, 0, groupId, log.menus, log');
          assert r.log.calls[|log.calls|] == r.log.calls[..|log'.calls|][|log.calls|];
        }
      }
    }
  }

  /** A "group" node changes the group only for its own children: its calls are those of
      its children under its own id, whatever the enclosing group, and the siblings after
      it are walked in the enclosing group. */
  lemma GroupScopesOwnChildren(ctx: Context, source: Node, i: nat, groupId: int, otherGroupId: int, target: MenuId, log: Log)
    requires i < |source.children|
    requires source.children[i].name == "group" && !RejectedByI18n(ctx, source.children[i])
    ensures var group := source.children[i];
            var inner := Walk(ctx, group, 0, GroupIdOf(ctx, group), target, log);
            && Visit(ctx, group, groupId, target, log) == Visit(ctx, group, otherGroupId, target, log) == inner
            && Walk(ctx, source, i, groupId, target, log)
               == if inner.err.Some? then inner else Walk(ctx, source, i + 1, groupId, target, inner.log)
  {
  }

  // ---------------------------------------------------------------------------
  // Dispatch on one child

  /** A submenu item makes one `addSubMenu` call in the current group, with the "id"
      resource (default 0), order 0 and the title exactly as written, even when it is a
      "@" reference; its first child's children then go into the new submenu. */
  lemma SubMenuItemCall(ctx: Context, child: Node, groupId: int, target: MenuId, log: Log)
    requires child.name == "item" && child.isSubMenuItem && !RejectedByI18n(ctx, child)
    ensures var id := AttributeResourceValue(ctx, child.attrs, "id", 0);
            var log' := Log(log.calls + [AddSubMenu(target, groupId, id, 0, AttributeValue(child.attrs, "title"), log.menus)],
                            log.menus + 1, log.items);
            Visit(ctx, child, groupId, target, log)
            == if |child.children| == 0 then Run(log', Some(Other(NoSubMenuNode)))
               else Walk(ctx, child.children[0], 0, groupId, log.menus, log')
  {
  }

  /** A plain item makes one `add` call in the current group with its resolved title,
      "orderInCategory" and "id" (both 0 when absent), followed, exactly when
      "actionViewClass" is given, by one `setActionView` of the view built for it on the
      new item. */
  lemma PlainItemCall(ctx: Context, child: Node, groupId: int, target: MenuId, log: Log)
    requires child.name == "item" && !child.isSubMenuItem && !RejectedByI18n(ctx, child)
    requires Visit(ctx, child, groupId, target, log).err.None?
    ensures var attrs := child.attrs;
            var r := Visit(ctx, child, groupId, target, log);
            && ItemTitle(ctx, attrs).Ok?
            && |r.log.calls| > |log.calls|
            && r.log.calls[|log.calls|]
               == Add(target, groupId, AttributeResourceValue(ctx, attrs, "id", 0),
                      AttributeIntValue(ctx, attrs, "orderInCategory", 0), ItemTitle(ctx, attrs).value, log.items)
            && (AttrKey(AndroidNs, "id") !in attrs ==> r.log.calls[|log.calls|].itemId == 0)
            && (AttrKey(AndroidNs, "orderInCategory") !in attrs ==> r.log.calls[|log.calls|].order == 0)
            && (|r.log.calls| == |log.calls| + 2 <==> AttrKey(AndroidNs, "actionViewClass") in attrs)
            && |r.log.calls| <= |log.calls| + 2
            && (AttrKey(AndroidNs, "actionViewClass") in attrs ==>
                  && ctx.newActionView(attrs[AttrKey(AndroidNs, "actionViewClass")]).Some?
                  && r.log.calls[|log.calls| + 1]
                     == SetActionView(log.items, ctx.newActionView(attrs[AttrKey(AndroidNs, "actionViewClass")]).value))
  {
  }

  /** A failing action-view construction is reported after the item was added, and the
      item is not taken back. */
  lemma ActionViewFailureKeepsItem(ctx: Context, child: Node, groupId: int, target: MenuId, log: Log)
    requires child.name == "item" && !child.isSubMenuItem && !RejectedByI18n(ctx, child)
    requires ItemTitle(ctx, child.attrs).Ok?
    requires AttributeValue(child.attrs, "actionViewClass").Some?
    requires ctx.newActionView(AttributeValue(child.attrs, "actionViewClass").value).None?
    ensures var attrs := child.attrs;
            var className := AttributeValue(attrs, "actionViewClass").value;
            Visit(ctx, child, groupId, target, log)
            == Run(log.WithAdd(target, groupId, AttributeResourceValue(ctx, attrs, "id", 0),
                               AttributeIntValue(ctx, attrs, "orderInCategory", 0), ItemTitle(ctx, attrs).value),
                   Some(Other(ActionViewNotFound(className))))
  {
  }

  /** A child that is neither an item nor a group makes no call and raises nothing
      (unless the i18n check rejects it), and its subtree plays no part. */
  lemma UnknownNodeIsSkipped(ctx: Context, child: Node, groupId: int, target: MenuId, log: Log)
    requires child.name != "item" && child.name != "group"
    ensures Visit(ctx, child, groupId, target, log)
         == if RejectedByI18n(ctx, child) then Run(log, Some(Validation)) else Run(log, None)
  {
  }

  // ---------------------------------------------------------------------------
  // Errors

  /** The walk stops at its first error: children after the one that failed are never
      looked at, so cutting them off changes nothing. */
  lemma {:induction false} ErrorStopsWalk(ctx: Context, source: Node, k: nat, i: nat, groupId: int, target: MenuId, log: Log)
    requires i <= k <= |source.children|
    requires Walk(ctx, source.(children := source.children[..k]), i, groupId, target, log).err.Some?
    ensures Walk(ctx, source, i, groupId, target, log)
         == Walk(ctx, source.(children := source.children[..k]), i, groupId, target, log)
    decreases k - i
  {
    var prefix := source.(children := source.children[..k]);
    if i < k {
      assert prefix.children[i] == source.children[i];
      var r := Visit(ctx, source.children[i], groupId, target, log);
      if r.err.None? {
        ErrorStopsWalk(ctx, source, k, i + 1, groupId, target, r.log);
      }
    }
  }

  /** Under strict i18n a rejected child aborts the walk at once: nothing is created for
      it or for any later sibling. */
  lemma RejectedChildAborts(ctx: Context, source: Node, i: nat, groupId: int, target: MenuId, log: Log)
    requires i < |source.children| && RejectedByI18n(ctx, source.children[i])
    ensures Walk(ctx, source, i, groupId, target, log) == Run(log, Some(Validation))
  {
  }

  /** Without strict i18n the walk never raises the i18n error. */
  lemma {:induction false} LenientWalkPassesI18n(ctx: Context, source: Node, i: nat, groupId: int, target: MenuId, log: Log)
    requires i <= |source.children| && !ctx.strictI18n
    ensures Walk(ctx, source, i, groupId, target, log).err != Some(Validation)
    decreases source, |source.children| - i
  {
    if i < |source.children| {
      var r := Visit(ctx, source.children[i], groupId, target, log);
      LenientVisitPassesI18n(ctx, source.children[i], groupId, target, log);
      if r.err.None? {
        LenientWalkPassesI18n(ctx, source, i + 1, groupId, target, r.log);
      }
    }
  }

  lemma {:induction false} LenientVisitPassesI18n(ctx: Context, child: Node, groupId: int, target: MenuId, log: Log)
    requires !ctx.strictI18n
    ensures Visit(ctx, child, groupId, target, log).err != Some(Validation)
    decreases child, |child.children| + 1
  {
    var attrs := child.attrs;
    if child.name == "item" {
      if child.isSubMenuItem && |child.children| > 0 {
        var log' := log.WithSubMenu(target, groupId, AttributeResourceValue(ctx, attrs, "id", 0), 0,
                                    AttributeValue(attrs, "title"));
        LenientWalkPassesI18n(ctx, child.children[0], 0, groupId, log.menus, log');
      }
    } else if child.name == "group" {
      LenientWalkPassesI18n(ctx, child, 0, GroupIdOf(ctx, child), target, log);
    }
  }

  /** inflate starts in group 0, reports an i18n violation unwrapped, wraps every other
      failure with the resource name, and never reports the i18n error without strict mode. */
  lemma InflateOutcome(ctx: Context, resName: string, menu: Node, root: MenuId, log: Log)
    ensures var (log', failure) := Inflate(ctx, resName, menu, root, log);
            var r := Walk(ctx, menu, 0, 0, root, log);
            && log' == r.log
            && (failure.None? <==> r.err.None?)
            && (failure == Some(I18nError) <==> r.err == Some(Validation))
            && (forall c :: r.err == Some(Other(c)) ==> failure == Some(InflationError(resName, c)))
            && (!ctx.strictI18n ==> failure != Some(I18nError))
  {
    if !ctx.strictI18n {
      LenientWalkPassesI18n(ctx, menu, 0, 0, root, log);
    }
  }
}
