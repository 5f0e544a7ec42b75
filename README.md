# Menu inflation in Robolectric's ShadowMenuInflater

Robolectric's `ShadowMenuInflater` turns a parsed menu resource into calls on an Android
`Menu`. `inflate(resource, root)` looks up the resource's node tree. It then walks the tree
from group id 0. For each child, in declaration order, `addChildrenInGroup` does this:

- Under strict i18n, it validates the child's attributes first.
- Then it dispatches on the child's name:
  - `"item"` marked as a submenu item: one `addSubMenu` call. The walk then goes on into
    the children of the item's first child, in the same group, on the new submenu.
  - Any other `"item"`: one `add` call. A title starting with `"@"` is first replaced by
    the string resource it names. An action view of class `actionViewClass` is then
    attached, when that attribute is given.
  - `"group"`: its own children are walked with the group's `id` as the group id.
  - Any other name: skipped, together with its subtree.

`inflate` rethrows an i18n exception unchanged. It wraps every other exception with the
resource name.

The project has six modules, one file each:

- `Resources` (`resources.dfy`): the node tree (`Node`) and the attributes, keyed by
  namespace and name, as `Attrs`. Also the typed attribute getters, each with its
  default, and the `Context`. The context gathers what the inflater consults outside
  itself: the strict-i18n flag, the i18n check (`violatesI18n`), resource-id and integer
  conversion of attribute values (`resourceValue`, `intValue`), `getString`, and action-view
  construction (`newActionView`). The strict-i18n flag is a plain value; the others are
  opaque functions. The conversions are total.
  The i18n check can reject a node, and `getString` and `newActionView` can find nothing.
- `MenuApi` (`menu_api.dfy`): the target menu, modelled by the calls made on it.
  - `Call` is `add`, `addSubMenu` or `setActionView`, with the handles handed out.
  - `Log` is the call sequence and the next handles, with the invariant `Log.Valid`.
  - `MenuGraph` is a class that records calls.
- `Inflation` (`inflation.dfy`): the walk as functions: `Walk` over the children of a
  node, `Visit` for one child, title resolution, `AttachActionView`, and the error split
  in `Classify` and `Inflate`. Exceptions become values: `WalkError` inside the walk, and
  `Failure` (`I18nError` or `InflationError(resName, cause)`) out of `inflate`.
- `ShadowMenuInflater` (`shadow_menu_inflater.dfy`): the class `MenuInflater`. Its methods
  `Inflate`, `AddChildrenInGroup` (the loop over the children), `AddChild` (the body of
  that loop for one child, which recurses into `AddChildrenInGroup`) and
  `AddActionViewToItem` change a `MenuGraph`. Each method is proved to leave the graph
  exactly as the matching `Inflation` function says, and to return the same error.
- `InflationProperties` (`properties.dfy`): the properties. `ExpectedWalk`/`ExpectedVisit`
  is a separate, compositional reference definition of the calls. `ItemsFrom`/`SubMenusFrom`
  count what a walk creates. The lemmas cover pre-order, counts, group scoping, the
  dispatch cases, error propagation and the graph invariant.
- `InflationExample` (`example.dfy`): a worked example, a group holding a plain item and a
  submenu item.

A submenu item with no children is not excluded by a precondition. The source calls
`addSubMenu` and then `getChildren().get(0)`, and the resulting `IndexOutOfBoundsException`
is caught by `inflate`'s `catch (Exception e)` and wrapped. The model does the same: the
submenu is added, and the walk fails with `NoSubMenuNode`, which `inflate` reports as an
`InflationError`.

A failing action view is reported as `ActionViewNotFound`. The source throws it as
`RuntimeException("Action View class not found!")` inside the walk, so `inflate` wraps it
again. It therefore reaches the caller as `InflationError(resName, ActionViewNotFound(cls))`.

A submenu item's title is passed as written, even when it starts with `@`
(`ShadowMenuInflater.java:53-55`). Only plain items resolve references
(`ShadowMenuInflater.java:59-62`). `InflationExample.ExampleInflation` shows the submenu
title left unresolved.

## Model

| member | source | states |
|---|---|---|
| `Inflation.IsFullyQualifiedName` | robolectric/src/main/java/org/robolectric/shadows/ShadowMenuInflater.java:82-84 | a title counts as a reference exactly when it is present and its first character is `@` |
| `Inflation.GetStringResourceValue` | robolectric/src/main/java/org/robolectric/shadows/ShadowMenuInflater.java:77-80 | returns the string resource whose id the `title` attribute resolves to (id 0 when absent); it fails with `StringNotFound(id)` exactly when `getString` has no such string |
| `Inflation.ItemTitle` | robolectric/src/main/java/org/robolectric/shadows/ShadowMenuInflater.java:59-62 | a plain item's `@` title is replaced by the string resource its resource id names, or fails with that id; any other title, absent included, is used unchanged |
| `Inflation.Classify` | robolectric/src/main/java/org/robolectric/shadows/ShadowMenuInflater.java:35-41 | no error gives no failure; the i18n error, and only it, gives `I18nError` unwrapped; every other cause is wrapped as `InflationError(resName, cause)` |
| `ShadowMenuInflater.MenuInflater.constructor` | robolectric/src/main/java/org/robolectric/shadows/ShadowMenuInflater.java:24-28 | the inflater keeps the context it was built with, strict-i18n flag included |
| `ShadowMenuInflater.MenuInflater.Inflate` | robolectric/src/main/java/org/robolectric/shadows/ShadowMenuInflater.java:31-42 | the graph ends as the walk from group 0 on the root leaves it, the returned failure is the walk's error classified, and the graph stays well formed |
| `ShadowMenuInflater.MenuInflater.AddChildrenInGroup` | robolectric/src/main/java/org/robolectric/shadows/ShadowMenuInflater.java:44-75 | the loop with recursion makes exactly the calls of `Inflation.Walk` from the first child and returns its error; the graph stays well formed and its menu handles only grow |
| `ShadowMenuInflater.MenuInflater.AddChild` | robolectric/src/main/java/org/robolectric/shadows/ShadowMenuInflater.java:46-73 | one pass of the loop body (i18n check, then dispatch on the name) makes exactly the calls of `Inflation.Visit` for that child and returns its error |
| `ShadowMenuInflater.MenuInflater.AddActionViewToItem` | robolectric/src/main/java/org/robolectric/shadows/ShadowMenuInflater.java:86-96 | without `actionViewClass` nothing happens; otherwise the constructed view is set on the item just added, or the error is `ActionViewNotFound(class)` and the graph is unchanged |
| `InflationProperties.WalkIsPreorder` | robolectric/src/main/java/org/robolectric/shadows/ShadowMenuInflater.java:44-75 | a successful walk appends exactly the reference calls, which concatenate each child's calls in declaration order; menu and item handles advance by the number of submenus and items created |
| `InflationProperties.VisitIsPreorder` | robolectric/src/main/java/org/robolectric/shadows/ShadowMenuInflater.java:46-73 | one child, when it succeeds, contributes exactly its reference calls and hands out one handle per submenu and per item inside it |
| `InflationProperties.CreatedCounts` | robolectric/src/main/java/org/robolectric/shadows/ShadowMenuInflater.java:51-73 | a successful walk makes one `add` per reachable plain item and one `addSubMenu` per reachable submenu item |
| `InflationProperties.WalkExtends` | robolectric/src/main/java/org/robolectric/shadows/ShadowMenuInflater.java:44-75 | a walk, failing or not, only appends calls: earlier calls are never taken back, and the handles never decrease |
| `InflationProperties.VisitExtends` | robolectric/src/main/java/org/robolectric/shadows/ShadowMenuInflater.java:46-73 | the same for one child, including an item whose action view then fails |
| `MenuApi.AppendKeepsValid` | robolectric/src/main/java/org/robolectric/shadows/ShadowMenuInflater.java:53-68 | one `add` or `addSubMenu` on an existing menu taking the next handle, or an action view on the item just added, keeps a well-formed graph well formed |
| `MenuApi.SubMenuHandedOut` | robolectric/src/main/java/org/robolectric/shadows/ShadowMenuInflater.java:53-57 | in a graph created in order, every submenu handle from 1 to the number of `addSubMenu` calls was handed out by one of those calls |
| `MenuApi.TargetExistedBefore` | robolectric/src/main/java/org/robolectric/shadows/ShadowMenuInflater.java:53-57 | in a well-formed graph, the k-th `addSubMenu` hands out menu handle 1 + the number of earlier `addSubMenu` calls, the k-th `add` hands out item handle the number of earlier `add` calls, and every `add` or `addSubMenu` targets the root (0) or a submenu handed out by an earlier call |
| `MenuApi.AddBeforeItsSubMenuIsInvalid` | robolectric/src/main/java/org/robolectric/shadows/ShadowMenuInflater.java:53-57 | a log that adds to a submenu before the `addSubMenu` creating it is not well formed, although its handles are below the final count |
| `MenuApi.SharedSubMenuHandleIsInvalid` | robolectric/src/main/java/org/robolectric/shadows/ShadowMenuInflater.java:53-57 | a log in which two `addSubMenu` calls share handle 1, and an `add` targets menu 2, is not well formed |
| `MenuApi.SkippedItemHandleIsInvalid` | robolectric/src/main/java/org/robolectric/shadows/ShadowMenuInflater.java:66-68 | a log whose first `add` hands out item handle 5 instead of 0 is not well formed |
| `InflationProperties.WalkPreservesValid` | robolectric/src/main/java/org/robolectric/shadows/ShadowMenuInflater.java:44-75 | started on a well-formed graph and an existing target, a walk leaves the next handles equal to the call counts, each `add` and `addSubMenu` having taken the next handle when it was made and aimed at the root or at a submenu created by an earlier call, and each action view on the item added just before it |
| `InflationProperties.VisitPreservesValid` | robolectric/src/main/java/org/robolectric/shadows/ShadowMenuInflater.java:51-73 | the same for one child |
| `InflationProperties.GroupIsInherited` | robolectric/src/main/java/org/robolectric/shadows/ShadowMenuInflater.java:44-75 | with no `"group"` node below, every `add` and `addSubMenu` is made in the enclosing group id, submenu contents included |
| `InflationProperties.VisitInGroup` | robolectric/src/main/java/org/robolectric/shadows/ShadowMenuInflater.java:51-69 | a group-free child, a submenu item included, creates everything in the current group |
| `InflationProperties.GroupScopesOwnChildren` | robolectric/src/main/java/org/robolectric/shadows/ShadowMenuInflater.java:70-72 | a `"group"` child's calls are its children's calls under its own id, whatever the enclosing group; the siblings after it go on in the enclosing group |
| `InflationProperties.SubMenuItemCall` | robolectric/src/main/java/org/robolectric/shadows/ShadowMenuInflater.java:52-57 | a submenu item makes one `addSubMenu` in the current group, with the `id` resource (default 0), order 0 and the literal title. It then walks its first child's children, in the same group, into the new submenu handle; with no child it fails with `NoSubMenuNode` after the call |
| `InflationProperties.PlainItemCall` | robolectric/src/main/java/org/robolectric/shadows/ShadowMenuInflater.java:58-68 | a successful plain item makes one `add` in the current group with its resolved title: `id` and `orderInCategory` as resolved, 0 when absent. It is followed, exactly when `actionViewClass` is given, by one `setActionView` of the view built for that class on the new item |
| `InflationProperties.ActionViewFailureKeepsItem` | robolectric/src/main/java/org/robolectric/shadows/ShadowMenuInflater.java:66-95 | when the action view cannot be constructed, the error comes after the item was added, and the item stays |
| `InflationProperties.UnknownNodeIsSkipped` | robolectric/src/main/java/org/robolectric/shadows/ShadowMenuInflater.java:46-73 | a child that is neither `"item"` nor `"group"` makes no call and raises no error (unless strict i18n rejects it); its subtree is never visited |
| `InflationProperties.ErrorStopsWalk` | robolectric/src/main/java/org/robolectric/shadows/ShadowMenuInflater.java:44-75 | once a child raises an error, the later siblings play no part: cutting them off gives the same result |
| `InflationProperties.RejectedChildAborts` | robolectric/src/main/java/org/robolectric/shadows/ShadowMenuInflater.java:47-50 | under strict i18n, a rejected child stops the walk before any call is made for it or for a later sibling |
| `InflationProperties.LenientWalkPassesI18n` | robolectric/src/main/java/org/robolectric/shadows/ShadowMenuInflater.java:48-50 | with strict i18n off, a walk never raises the i18n error |
| `InflationProperties.LenientVisitPassesI18n` | robolectric/src/main/java/org/robolectric/shadows/ShadowMenuInflater.java:48-50 | the same for one child |
| `InflationProperties.InflateOutcome` | robolectric/src/main/java/org/robolectric/shadows/ShadowMenuInflater.java:31-42 | `inflate` walks from group 0 on the root. It reports the i18n error unwrapped exactly when the walk raised it, and wraps every other cause with the resource name. It never reports the i18n error without strict mode |
| `InflationExample.ExampleInflation` | robolectric/src/main/java/org/robolectric/shadows/ShadowMenuInflater.java:44-75 | group 1 holding `Settings` (id 10, order 5) and a submenu item (id 11, title `@string/exit_label`) holding `Confirm` (id 12) gives `add(1,10,5,"Settings")`, `addSubMenu(1,11,0,"@string/exit_label")`, then `add(1,12,0,"Confirm")` on the submenu |
| `InflationExample.ExampleStrictInflation` | robolectric/src/main/java/org/robolectric/shadows/ShadowMenuInflater.java:35-50 | with strict i18n rejecting the hardcoded `Settings` title, inflation creates nothing and reports `I18nError` |

## Left out

- Looking up the menu node tree for a resource id under the configuration qualifiers
  (`ShadowMenuInflater.java:32-33`), and naming the resource (`:40`): these are
  resource-loader plumbing. The tree and the resource name are inputs of `Inflate`,
  and the resource loader kept by the constructor is not modelled.
- Java reflection for action views (`:90`): it is the opaque, possibly failing
  `Context.newActionView`. A failed cast to `View` is one of its failures.
- `context.getString` (`:79`): the opaque `Context.getString`; an unknown id is its failure.
- What `RoboAttributeSet.validateStrictI18n` checks (`:49`): the opaque predicate
  `Context.violatesI18n`. The model only records where it is called and how its failure
  propagates.
- How `RoboAttributeSet` turns an attribute value into a resource id or an integer: the
  opaque total functions `Context.resourceValue` and `Context.intValue`. An exception
  those conversions might throw is not modelled.
- The Android `Menu`, `SubMenu` and `MenuItem` implementations: a menu graph is the
  record of the calls made on it. Ordering by `orderInCategory` inside the menu is not
  modelled, nor is any exception the menus themselves raise.
- Exception messages and the chained cause objects: errors are values that keep only
  the kind of failure, the resource name and the offending id or class name.
- A `null` node name or child list, and the unbounded recursion depth: a `Node` always
  has a name and a (possibly empty) sequence of children.
- `LibraryHandlingTest.java`: a test of string-resource precedence across library
  projects. It depends on resource files and manifests and holds no logic of the inflater.
