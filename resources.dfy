/** The inputs of a menu inflation: the parsed menu resource tree, the attributes on
    each node, and the context services the inflater consults (string resources,
    typed attribute conversion, the strict i18n check and action-view construction). */
module Resources {

  datatype Option<+T> = None | Some(value: T)

  /** The XML namespace every menu attribute is looked up in (ResourceLoader.ANDROID_NS). */
  const AndroidNs: string := "http://schemas.android.com/apk/res/android"

  /** An attribute is keyed by its namespace and its local name. */
  datatype AttrKey = AttrKey(namespace: string, name: string)

  /** The raw, unresolved attribute values of one node. */
  type Attrs = map<AttrKey, string>

  /** A node of a parsed menu resource (a MenuNode): its tag name, its attributes,
      its children in document order, and whether it is an item that carries a submenu. */
  datatype Node = Node(name: string, attrs: Attrs, children: seq<Node>, isSubMenuItem: bool)

  /** An action view instance, identified opaquely. */
  type View = nat

  /** What the inflater reads from its Android context.
      - strictI18n: whether strict i18n checking is on;
      - violatesI18n: the outcome of validating one attribute set (true = it would throw);
      - resourceValue: the resource id a present attribute value stands for;
      - intValue: the integer a present attribute value stands for;
      - getString: the text of a string resource, None when the id is unknown;
      - newActionView: constructing a view of the named class, None when that fails. */
  datatype Context = Context(
    strictI18n: bool,
    violatesI18n: Attrs -> bool,
    resourceValue: string -> int,
    intValue: string -> int,
    getString: int -> Option<string>,
    newActionView: string -> Option<View>)

  /** The raw value of an attribute in the Android namespace, None when absent. */
  function AttributeValue(attrs: Attrs, name: string): (r: Option<string>)
    ensures r.Some? <==> AttrKey(AndroidNs, name) in attrs
    ensures r.Some? ==> r.value == attrs[AttrKey(AndroidNs, name)]
  {
    var key := AttrKey(AndroidNs, name);
    if key in attrs then Some(attrs[key]) else None
  }

  /** The resource id an attribute refers to, or `default` when the attribute is absent. */
  function AttributeResourceValue(ctx: Context, attrs: Attrs, name: string, default: int): (r: int)
    ensures AttributeValue(attrs, name).None? ==> r == default
    ensures AttributeValue(attrs, name).Some? ==> r == ctx.resourceValue(AttributeValue(attrs, name).value)
  {
    match AttributeValue(attrs, name)
    case None => default
    case Some(v) => ctx.resourceValue(v)
  }

  /** The integer value of an attribute, or `default` when the attribute is absent. */
  function AttributeIntValue(ctx: Context, attrs: Attrs, name: string, default: int): (r: int)
    ensures AttributeValue(attrs, name).None? ==> r == default
    ensures AttributeValue(attrs, name).Some? ==> r == ctx.intValue(AttributeValue(attrs, name).value)
  {
    match AttributeValue(attrs, name)
    case None => default
    case Some(v) => ctx.intValue(v)
  }
}
