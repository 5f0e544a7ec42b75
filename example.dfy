/** A worked example: a group (id 1) holding a plain item and an item with a submenu
    whose title is a string reference. */
module InflationExample {
  import opened Resources
  import opened MenuApi
  import opened Inflation

  function Attr(name: string): AttrKey { AttrKey(AndroidNs, name) }

  /** Context of the example: lenient i18n, fixed resource ids, one string resource. */
  function ExampleContext(strict: bool): Context
  {
    Context(
      strict,
      (attrs: Attrs) => Attr("title") in attrs && attrs[Attr("title")] == "Settings",
      (v: string) =>
        if v == "@+id/group" then 1 else if v == "@+id/settings" then 10
        else if v == "@+id/exit" then 11 else if v == "@+id/confirm" then 12
        else if v == "@string/exit_label" then 77 else 0,
      (v: string) => if v == "5" then 5 else 0,
      (id: int) => if id == 77 then Some("Exit") else None,
      (className: string) => None)
  }

  function Settings(): Node
  {
    Node("item", map[Attr("id") := "@+id/settings", Attr("title") := "Settings", Attr("orderInCategory") := "5"], [], false)
  }

  function Confirm(): Node
  {
    Node("item", map[Attr("id") := "@+id/confirm", Attr("title") := "Confirm"], [], false)
  }

  function Exit(): Node
  {
    Node("item", map[Attr("id") := "@+id/exit", Attr("title") := "@string/exit_label"],
         [Node("menu", map[], [Confirm()], false)], true)
  }

  function Group(): Node
  {
    Node("group", map[Attr("id") := "@+id/group"], [Settings(), Exit()], false)
  }

  function ExampleMenu(): Node
  {
    Node("menu", map[], [Group()], false)
  }

  // One step per node of the example, in the lenient context.

  lemma SettingsStep()
    ensures Visit(ExampleContext(false), Settings(), 1, 0, Log([], 1, 0))
         == Run(Log([Add(0, 1, 10, 5, Some("Settings"), 0)], 1, 1), None)
  {
    var ctx := ExampleContext(false);
    assert AttributeValue(Settings().attrs, "title") == Some("Settings");
    assert AttributeValue(Settings().attrs, "actionViewClass") == None;
    assert AttributeResourceValue(ctx, Settings().attrs, "id", 0) == 10;
    assert AttributeIntValue(ctx, Settings().attrs, "orderInCategory", 0) == 5;
  }

  lemma ConfirmStep(log: Log)
    ensures Walk(ExampleContext(false), Exit().children[0], 0, 1, 1, log)
         == Run(log.WithAdd(1, 1, 12, 0, Some("Confirm")), None)
  {
    var ctx := ExampleContext(false);
    assert AttributeValue(Confirm().attrs, "title") == Some("Confirm");
    assert AttributeValue(Confirm().attrs, "actionViewClass") == None;
    assert AttributeResourceValue(ctx, Confirm().attrs, "id", 0) == 12;
    assert AttributeValue(Confirm().attrs, "orderInCategory") == None;
    assert Visit(ctx, Confirm(), 1, 1, log) == Run(log.WithAdd(1, 1, 12, 0, Some("Confirm")), None);
  }

  lemma ExitStep(log: Log)
    requires log.menus == 1
    ensures Visit(ExampleContext(false), Exit(), 1, 0, log)
         == Run(log.WithSubMenu(0, 1, 11, 0, Some("@string/exit_label")).WithAdd(1, 1, 12, 0, Some("Confirm")), None)
  {
    var ctx := ExampleContext(false);
    assert AttributeValue(Exit().attrs, "title") == Some("@string/exit_label");
    assert AttributeResourceValue(ctx, Exit().attrs, "id", 0) == 11;
    ConfirmStep(log.WithSubMenu(0, 1, 11, 0, Some("@string/exit_label")));
  }

  /** Into a fresh graph: add(1, 10, 5, "Settings"); addSubMenu(1, 11, 0, "@string/exit_label")
      with the reference left unresolved; then add(1, 12, 0, "Confirm") on the submenu. */
  lemma ExampleInflation()
    ensures Inflate(ExampleContext(false), "menu/example", ExampleMenu(), 0, Log([], 1, 0))
         == (Log([Add(0, 1, 10, 5, Some("Settings"), 0),
                  AddSubMenu(0, 1, 11, 0, Some("@string/exit_label"), 1),
                  Add(1, 1, 12, 0, Some("Confirm"), 1)], 2, 2),
             None)
  {
    var ctx := ExampleContext(false);
    var l1 := Log([Add(0, 1, 10, 5, Some("Settings"), 0)], 1, 1);
    var l3 := l1.WithSubMenu(0, 1, 11, 0, Some("@string/exit_label")).WithAdd(1, 1, 12, 0, Some("Confirm"));
    assert l3 == Log([Add(0, 1, 10, 5, Some("Settings"), 0),
                      AddSubMenu(0, 1, 11, 0, Some("@string/exit_label"), 1),
                      Add(1, 1, 12, 0, Some("Confirm"), 1)], 2, 2);
    SettingsStep();
    ExitStep(l1);
    assert GroupIdOf(ctx, Group()) == 1;
    assert Walk(ctx, Group(), 1, 1, 0, l1) == Run(l3, None);
    assert Walk(ctx, Group(), 0, 1, 0, Log([], 1, 0)) == Run(l3, None);
    assert Visit(ctx, Group(), 0, 0, Log([], 1, 0)) == Run(l3, None);
  }

  /** With strict i18n on and the hardcoded "Settings" title rejected, inflation stops at
      that item, creates nothing, and reports the i18n error unwrapped. */
  lemma ExampleStrictInflation()
    ensures Inflate(ExampleContext(true), "menu/example", ExampleMenu(), 0, Log([], 1, 0))
         == (Log([], 1, 0), Some(I18nError))
  {
  }
}
