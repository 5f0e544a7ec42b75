/** The menu inflater itself: it walks a menu resource tree and issues creation calls on
    a target menu graph. Each method is proved to leave the graph exactly as the
    corresponding function of module Inflation says, and to report the same error. */
module ShadowMenuInflater {
  import opened Resources
  import opened MenuApi
  import opened Inflation

  class MenuInflater {
    /** The context the inflater was created with; its strict-i18n flag is read once. */
    const context: Context

    constructor (context: Context)
      ensures this.context == context
    {
      this.context := context;
    }

    /** Inflates the tree `menu` (looked up for the resource named `resName`) into `root`,
        starting in group 0. An i18n violation is reported as it is; any other failure
        is wrapped with the resource name. */
    method Inflate(resName: string, menu: Node, root: MenuId, graph: MenuGraph) returns (failure: Option<Failure>)
      requires graph.Valid() && root < graph.menus
      modifies graph
      ensures graph.Valid()
      ensures (graph.State(), failure) == Inflation.Inflate(context, resName, menu, root, old(graph.State()))
    {
      var err := AddChildrenInGroup(menu, 0, root, graph);
      if err == None {
        failure := None;
      } else if err == Some(Validation) {
        failure := Some(I18nError);
      } else {
        failure := Some(InflationError(resName, err.value.cause));
      }
    }

    /** Visits the children of `source` in order, adding items and submenus to `root`
        under `groupId`; stops at the first error and returns it. */
    method AddChildrenInGroup(source: Node, groupId: int, root: MenuId, graph: MenuGraph) returns (err: Option<WalkError>)
      requires graph.Valid() && root < graph.menus
      modifies graph
      decreases source, 0
      ensures graph.Valid() && old(graph.menus) <= graph.menus
      ensures Run(graph.State(), err) == Walk(context, source, 0, groupId, root, old(graph.State()))
    {
      var i := 0;
      while i < |source.children|
        invariant 0 <= i <= |source.children|
        invariant graph.Valid() && root < graph.menus && old(graph.menus) <= graph.menus
        invariant Walk(context, source, 0, groupId, root, old(graph.State()))
               == Walk(context, source, i, groupId, root, graph.State())
      {
        err := AddChild(source.children[i], groupId, root, graph);
        if err.Some? {
          return;
        }
        i := i + 1;
      }
      err := None;
    }

    /** The body of the loop of addChildrenInGroup for one child: the strict i18n check,
        then the dispatch on the child's name. */
    method AddChild(child: Node, groupId: int, root: MenuId, graph: MenuGraph) returns (err: Option<WalkError>)
      requires graph.Valid() && root < graph.menus
      modifies graph
      decreases child, 1
      ensures graph.Valid() && old(graph.menus) <= graph.menus
      ensures Run(graph.State(), err) == Visit(context, child, groupId, root, old(graph.State()))
    {
      var name := child.name;
      var attributes := child.attrs;
      if context.strictI18n && context.violatesI18n(attributes) {
        return Some(Validation);
      }
      err := None;
      if name == "item" {
        if child.isSubMenuItem {
          var sub := graph.AddSubMenu(root, groupId, AttributeResourceValue(context, attributes, "id", 0),
                                      0, AttributeValue(attributes, "title"));
          if |child.children| == 0 {
            return Some(Other(NoSubMenuNode));
          }
          var subMenuNode := child.children[0];
          err := AddChildrenInGroup(subMenuNode, groupId, sub, graph);
        } else {
          var menuItemTitle := AttributeValue(attributes, "title");
          if IsFullyQualifiedName(menuItemTitle) {
            var text := GetStringResourceValue(context, attributes);
            if text.Fail? {
              return Some(Other(text.cause));
            }
            menuItemTitle := Some(text.value);
          }
          var orderInCategory := AttributeIntValue(context, attributes, "orderInCategory", 0);
          var menuItemId := AttributeResourceValue(context, attributes, "id", 0);
          var item := graph.Add(root, groupId, menuItemId, orderInCategory, menuItemTitle);
          err := AddActionViewToItem(item, attributes, graph);
        }
      } else if name == "group" {
        var newGroupId := AttributeResourceValue(context, attributes, "id", 0);
        err := AddChildrenInGroup(child, newGroupId, root, graph);
      }
    }

    /** Attaches an action view of the class named by "actionViewClass", if any, to the
        item just added; a class that cannot be constructed is an error, and the item
        stays in the menu. */
    method AddActionViewToItem(item: ItemId, attributes: Attrs, graph: MenuGraph) returns (err: Option<WalkError>)
      requires graph.Valid()
      requires graph.calls != [] && graph.calls[|graph.calls| - 1].Add? && graph.calls[|graph.calls| - 1].item == item
      modifies graph
      ensures graph.Valid() && graph.menus == old(graph.menus)
      ensures Run(graph.State(), err) == AttachActionView(context, attributes, item, old(graph.State()))
    {
      var actionViewClassName := AttributeValue(attributes, "actionViewClass");
      err := None;
      if actionViewClassName.Some? {
        var actionView := context.newActionView(actionViewClassName.value);
        if actionView.None? {
          return Some(Other(ActionViewNotFound(actionViewClassName.value)));
        }
        graph.SetActionView(item, actionView.value);
      }
    }
  }
}
