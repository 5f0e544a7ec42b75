/** The menu inflation walk of ShadowMenuInflater, as functions of the context, the
    resource tree and the state of the target menu graph. The imperative class in
    module ShadowMenuInflater is proved to make exactly the calls these functions describe. */
module Inflation {
  import opened Resources
  import opened MenuApi

  /** Why a step failed with something other than an i18n violation. */
  datatype Cause =
    | StringNotFound(id: int)             // context.getString on an unknown id
    | ActionViewNotFound(className: string) // "Action View class not found!"
    | NoSubMenuNode                       // a submenu item without children: get(0) is out of bounds

  /** An error raised inside the walk: the i18n exception, or any other exception. */
  datatype WalkError = Validation | Other(cause: Cause)

  /** What `inflate` lets escape: the i18n exception unchanged, everything else wrapped
      together with the name of the menu resource. */
  datatype Failure = I18nError | InflationError(resName: string, cause: Cause)

  datatype Result<+T> = Ok(value: T) | Fail(cause: Cause)

  /** The menu graph after (part of) a walk, and the error that stopped it, if any. */
  datatype Run = Run(log: Log, err: Option<WalkError>)

  /** A title is a resource reference when it is present and starts with "@". */
  function IsFullyQualifiedName(title: Option<string>): (r: bool)
    ensures r <==> title.Some? && |title.value| > 0 && title.value[0] == '@'
  {
    title.Some? && "@" <= title.value
  }

  /** The text of the string resource the "title" attribute refers to. */
  function GetStringResourceValue(ctx: Context, attrs: Attrs): (r: Result<string>)
    ensures var raw := AttributeValue(attrs, "title");
            var id := if raw.Some? then ctx.resourceValue(raw.value) else 0;
            && (r.Ok? <==> ctx.getString(id).Some?)
            && (r.Ok? ==> ctx.getString(id) == Some(r.value))
            && (r.Fail? ==> r.cause == StringNotFound(id))
  {
    var id := AttributeResourceValue(ctx, attrs, "title", 0);
    match ctx.getString(id)
    case Some(text) => Ok(text)
    case None => Fail(StringNotFound(id))
  }

  /** The title a plain item is added with: a reference is replaced by the string
      resource it names, anything else (absent included) is passed on as it is. */
  function ItemTitle(ctx: Context, attrs: Attrs): (r: Result<Option<string>>)
    ensures var raw := AttributeValue(attrs, "title");
            if raw.Some? && |raw.value| > 0 && raw.value[0] == '@' then
              match ctx.getString(ctx.resourceValue(raw.value))
              case Some(text) => r == Ok(Some(text))
              case None => r == Fail(StringNotFound(ctx.resourceValue(raw.value)))
            else r == Ok(raw)
  {
    var raw := AttributeValue(attrs, "title");
    if IsFullyQualifiedName(raw) then
      match GetStringResourceValue(ctx, attrs)
      case Ok(text) => Ok(Some(text))
      case Fail(c) => Fail(c)
    else Ok(raw)
  }

  /** The group id a "group" node opens for its children. */
  function GroupIdOf(ctx: Context, group: Node): int
  {
    AttributeResourceValue(ctx, group.attrs, "id", 0)
  }

  /** Whether the strict i18n check rejects a node's attributes. */
  predicate RejectedByI18n(ctx: Context, node: Node)
  {
    ctx.strictI18n && ctx.violatesI18n(node.attrs)
  }

  /** addActionViewToItem: attach a view of class "actionViewClass" to the item just added. */
  function AttachActionView(ctx: Context, attrs: Attrs, item: ItemId, log: Log): (r: Run)
  {
    match AttributeValue(attrs, "actionViewClass")
    case None => Run(log, None)
    case Some(className) =>
      match ctx.newActionView(className)
      case None => Run(log, Some(Other(ActionViewNotFound(className))))
      case Some(view) => Run(log.WithActionView(item, view), None)
  }

  /** addChildrenInGroup(source, groupId, target) from the i-th child on. */
  function Walk(ctx: Context, source: Node, i: nat, groupId: int, target: MenuId, log: Log): (r: Run)
    requires i <= |source.children|
    decreases source, |source.children| - i
  {
    if i == |source.children| then Run(log, None)
    else
      var r := Visit(ctx, source.children[i], groupId, target, log);
      if r.err.Some? then r else Walk(ctx, source, i + 1, groupId, target, r.log)
  }

  /** One iteration of the loop of addChildrenInGroup, for `child`. */
  function Visit(ctx: Context, child: Node, groupId: int, target: MenuId, log: Log): (r: Run)
    decreases child, |child.children| + 1
  {
    var attrs := child.attrs;
    if RejectedByI18n(ctx, child) then Run(log, Some(Validation))
    else if child.name == "item" then
      if child.isSubMenuItem then
        var sub := log.menus;
        var log' := log.WithSubMenu(target, groupId, AttributeResourceValue(ctx, attrs, "id", 0), 0,
                                    AttributeValue(attrs, "title"));
        if |child.children| == 0 then Run(log', Some(Other(NoSubMenuNode)))
        else Walk(ctx, child.children[0], 0, groupId, sub, log')
      else
        match ItemTitle(ctx, attrs)
        case Fail(c) => Run(log, Some(Other(c)))
        case Ok(title) =>
          var order := AttributeIntValue(ctx, attrs, "orderInCategory", 0);
          var id := AttributeResourceValue(ctx, attrs, "id", 0);
          AttachActionView(ctx, attrs, log.items, log.WithAdd(target, groupId, id, order, title))
    else if child.name == "group" then
      Walk(ctx, child, 0, GroupIdOf(ctx, child), target, log)
    else
      Run(log, None)
  }

  /** The catch clauses of inflate: the i18n exception is rethrown as it is, any other
      exception is wrapped with the resource name. */
  function Classify(resName: string, err: Option<WalkError>): (r: Option<Failure>)
    ensures r.None? <==> err.None?
    ensures r == Some(I18nError) <==> err == Some(Validation)
    ensures forall c :: err == Some(Other(c)) ==> r == Some(InflationError(resName, c))
  {
    match err
    case None => None
    case Some(Validation) => Some(I18nError)
    case Some(Other(c)) => Some(InflationError(resName, c))
  }

  /** inflate(resource, root) on the tree `menu` already looked up for `resName`. */
  function Inflate(ctx: Context, resName: string, menu: Node, root: MenuId, log: Log): (Log, Option<Failure>)
  {
    var r := Walk(ctx, menu, 0, 0, root, log);
    (r.log, Classify(resName, r.err))
  }
}
