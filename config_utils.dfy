/**
 * The saved-position records, the rule that inserts a new position, the
 * config file as a stored value, and the tray menu built from the saved
 * positions.
 */
module ConfigUtils {
  import opened Basics
  import opened Protocol

  /** Menu ids of the fixed tray entries. */
  const QUIT_ID: string := "quit"
  const ABOUT_ID: string := "about"
  const ADD_POSITION_ID: string := "add_position"
  const HEADER_ID: string := "idasen_controller"

  /** A named desk height. */
  datatype Position = Position(name: string, value: u16)

  /** The contents of the config file. */
  datatype ConfigData = ConfigData(macAddress: Option<string>, savedPositions: seq<Position>)

  // ---- The insert rule shared by `create_new_elem` and the egui Add button ----

  predicate HasName(ps: seq<Position>, name: string) {
    exists i :: 0 <= i < |ps| && ps[i].name == name
  }

  predicate NamesUnique(ps: seq<Position>) {
    forall i, j :: 0 <= i < j < |ps| ==> ps[i].name != ps[j].name
  }

  /**
   * Looks for a saved position with exactly this name (`iter().find`); if
   * there is none, the new position is pushed at the end. `None` is the
   * duplicate case, in which nothing is written.
   */
  function InsertPosition(ps: seq<Position>, name: string, value: u16): (r: Option<seq<Position>>)
    ensures r.None? <==> HasName(ps, name)
    ensures r.Some? ==> |r.value| == |ps| + 1 && r.value[..|ps|] == ps && r.value[|ps|] == Position(name, value)
  {
    match FindIndex(ps, (p: Position) => p.name == name)
    case Some(_) => None
    case None => Some(ps + [Position(name, value)])
  }

  /** Unique names stay unique, and the name just added is a duplicate from then on. */
  lemma InsertKeepsNamesUnique(ps: seq<Position>, name: string, value: u16)
    requires NamesUnique(ps)
    ensures var r := InsertPosition(ps, name, value);
      r.Some? ==> NamesUnique(r.value) && InsertPosition(r.value, name, value).None?
  {
    var r := InsertPosition(ps, name, value);
    if r.Some? {
      assert r.value[|ps|].name == name;
      forall i, j | 0 <= i < j < |r.value|
        ensures r.value[i].name != r.value[j].name
      {
        if j == |ps| {
          assert r.value[i] == ps[i];
        } else {
          assert r.value[i] == ps[i] && r.value[j] == ps[j];
        }
      }
    }
  }

  // ---- The config file ----

  /**
   * The config file, holding one parsed `ConfigData`. `Get` is `get_config`
   * and `Update` is `update_config`; `writes` counts the updates, so a
   * caller can be seen not to have written.
   */
  class ConfigFile {
    var stored: ConfigData
    var writes: nat

    constructor (initial: ConfigData)
      ensures stored == initial && writes == 0
    {
      stored := initial;
      writes := 0;
    }

    method Get() returns (c: ConfigData)
      ensures c == stored
    {
      c := stored;
    }

    method Update(c: ConfigData)
      modifies this
      ensures stored == c && writes == old(writes) + 1
    {
      stored := c;
      writes := writes + 1;
    }
  }

  // ---- The tray menu ----

  datatype MenuItem = MenuItem(id: string, title: string, enabled: bool)

  datatype MenuEntry =
    | Item(item: MenuItem)
    | Separator
    | Submenu(title: string, entries: seq<MenuEntry>)

  /** A position's menu element together with the values it was built from. */
  datatype MenuConfigItem = MenuConfigItem(positionElem: MenuItem, name: string, value: u16, confItemTitle: string)

  /** The menu item of one saved position: id and title are both its name. */
  function MenuItemOf(p: Position): MenuConfigItem {
    MenuConfigItem(MenuItem(p.name, p.name, true), p.name, p.value, p.name)
  }

  /** `get_menu_items_from_config`: one item per saved position, in order. */
  function GetMenuItemsFromConfig(config: ConfigData): (items: seq<MenuConfigItem>)
    ensures |items| == |config.savedPositions|
    ensures forall i :: 0 <= i < |items| ==>
      var p := config.savedPositions[i];
      items[i].name == p.name && items[i].value == p.value && items[i].confItemTitle == p.name &&
      items[i].positionElem.id == p.name && items[i].positionElem.title == p.name
  {
    seq(|config.savedPositions|, i requires 0 <= i < |config.savedPositions| => MenuItemOf(config.savedPositions[i]))
  }

  /** The `for item in &position_menu_items` builder loop, as a fold. */
  function AddPositionItems(menu: seq<MenuEntry>, items: seq<MenuConfigItem>): seq<MenuEntry>
    decreases |items|
  {
    if items == [] then menu
    else AddPositionItems(menu + [Item(items[0].positionElem)], items[1..])
  }

  /** The fold appends one entry per item, in order, after what was there. */
  lemma {:induction false} AddPositionItemsAppends(menu: seq<MenuEntry>, items: seq<MenuConfigItem>)
    ensures var m := AddPositionItems(menu, items);
      |m| == |menu| + |items| && m[..|menu|] == menu &&
      forall i :: 0 <= i < |items| ==> m[|menu| + i] == Item(items[i].positionElem)
    decreases |items|
  {
    if items != [] {
      var menu' := menu + [Item(items[0].positionElem)];
      AddPositionItemsAppends(menu', items[1..]);
      var m := AddPositionItems(menu, items);
      assert m == AddPositionItems(menu', items[1..]);
      assert m[..|menu|] == m[..|menu'|][..|menu|];
      forall i | 0 <= i < |items|
        ensures m[|menu| + i] == Item(items[i].positionElem)
      {
        if i > 0 {
          assert m[|menu'| + (i - 1)] == Item(items[1..][i - 1].positionElem);
        }
      }
    }
  }

  function HeaderItem(): MenuItem { MenuItem(HEADER_ID, "Idasen Controller", false) }
  function AboutItem(): MenuItem { MenuItem(ABOUT_ID, "About", true) }
  function QuitItem(): MenuItem { MenuItem(QUIT_ID, "Quit", true) }
  function AddPositionItem(): MenuItem { MenuItem(ADD_POSITION_ID, "Add a new position", true) }

  /** `create_main_tray`: the tray menu for a config. */
  function CreateMainTray(config: ConfigData): (menu: seq<MenuEntry>)
    ensures |menu| == 6 && menu[2].Submenu? && menu[2].title == "Positions"
    ensures menu[0] == Item(HeaderItem()) && !menu[0].item.enabled
    ensures menu[1] == Separator && menu[3] == Separator
    ensures menu[4] == Item(AboutItem()) && menu[5] == Item(QuitItem())
  {
    var positionsMenu := AddPositionItems([Item(AddPositionItem()), Separator], GetMenuItemsFromConfig(config));
    [Item(HeaderItem()), Separator, Submenu("Positions", positionsMenu), Separator, Item(AboutItem()), Item(QuitItem())]
  }

  /**
   * The Positions submenu is the add-position item, a separator, then one
   * enabled item per saved position in config order, with the position's
   * name as id and title.
   */
  lemma PositionsSubmenu(config: ConfigData)
    ensures var sub := CreateMainTray(config)[2].entries; var ps := config.savedPositions;
      |sub| == |ps| + 2 && sub[0] == Item(AddPositionItem()) && sub[1] == Separator &&
      forall i :: 0 <= i < |ps| ==> sub[i + 2] == Item(MenuItem(ps[i].name, ps[i].name, true))
  {
    var items := GetMenuItemsFromConfig(config);
    var head := [Item(AddPositionItem()), Separator];
    AddPositionItemsAppends(head, items);
    var sub := CreateMainTray(config)[2].entries;
    assert sub[..2] == head;
    assert sub[0] == head[0] && sub[1] == head[1];
    forall i | 0 <= i < |config.savedPositions|
      ensures sub[i + 2] == Item(MenuItem(config.savedPositions[i].name, config.savedPositions[i].name, true))
    {
      assert sub[|head| + i] == Item(items[i].positionElem);
      assert items[i] == MenuItemOf(config.savedPositions[i]);
    }
  }
}
