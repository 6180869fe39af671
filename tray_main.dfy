/**
 * The backend commands and tray handling of the tauri application:
 * `create_new_elem`, `get_avail_desks`, the tray-click dispatch and the
 * decision to close the main window at start-up.
 */
module TrayMain {
  import opened Basics
  import opened Protocol
  import opened Directory
  import opened ConfigUtils

  const DUPLICATE_REPLY: string := "duplicate"
  const SUCCESS_REPLY: string := "success"

  /**
   * `create_new_elem`: read the config, reject an exactly equal name with
   * "duplicate" and no write, otherwise push the position and write the
   * config back.
   */
  method CreateNewElem(file: ConfigFile, name: string, value: u16) returns (reply: string)
    modifies file
    ensures var before := old(file.stored);
      match InsertPosition(before.savedPositions, name, value)
      case None =>
        reply == DUPLICATE_REPLY && file.stored == before && file.writes == old(file.writes)
      case Some(ps) =>
        reply == SUCCESS_REPLY && file.stored == before.(savedPositions := ps) && file.writes == old(file.writes) + 1
  {
    var config := file.Get();
    var isDuplicate := FindIndex(config.savedPositions, (p: Position) => p.name == name);
    match isDuplicate {
      case Some(_) =>
        reply := DUPLICATE_REPLY;
      case None =>
        config := config.(savedPositions := config.savedPositions + [Position(name, value)]);
        file.Update(config);
        reply := SUCCESS_REPLY;
    }
  }

  /**
   * `get_avail_desks`: the names of the desks `get_desks(None)` finds, one
   * per desk in discovery order; a discovery error panics in
   * `get_list_of_desks`.
   */
  function GetAvailDesks(adapters: Result<seq<Adapter>, BtError>): (r: Result<seq<string>, Error>)
    ensures var found := GetDesksSpec(adapters, None);
      (r.Err? <==> found.Err?) && (r.Err? ==> r.error.Panic?) &&
      (r.Ok? ==> |r.value| == |found.value| && forall i :: 0 <= i < |r.value| ==> r.value[i] == found.value[i].name)
  {
    match GetDesksSpec(adapters, None)
    case Err(_) => Err(Panic("Error while getting a list of desks"))
    case Ok(desks) => Ok(seq(|desks|, i requires 0 <= i < |desks| => desks[i].name))
  }

  /** The listed names are never empty as a list, and each contains "Desk". */
  lemma AvailDesksAreDesks(adapters: Result<seq<Adapter>, BtError>)
    ensures var r := GetAvailDesks(adapters);
      r.Ok? ==> |r.value| > 0 && forall i :: 0 <= i < |r.value| ==> Contains(r.value[i], DESK_KEYWORD)
  {
    var r := GetAvailDesks(adapters);
    GetDesksNamesFit(adapters, None);
    if r.Ok? {
      var found := GetDesksSpec(adapters, None);
      forall i | 0 <= i < |r.value| ensures Contains(r.value[i], DESK_KEYWORD) {
        assert found.value[i] in found.value;
      }
    }
  }

  /** What a tray click leads to. */
  datatype TrayAction =
    | Exit                                // `std::process::exit(0)`
    | OpenWindow(route: string)           // a new main window at this route
    | Resolved(name: string, value: u16)  // the saved position the click names

  predicate IsReservedId(id: string) {
    id == QUIT_ID || id == ABOUT_ID || id == ADD_POSITION_ID
  }

  /**
   * The `MenuItemClick` dispatch. Any other id is looked up among the menu
   * items of the config read at click time; the first item with that id is
   * the clicked position, and none panics.
   */
  function HandleTrayClick(config: ConfigData, id: string): (r: Result<TrayAction, Error>)
    ensures id == QUIT_ID ==> r == Ok(Exit)
    ensures id == ABOUT_ID ==> r == Ok(OpenWindow("/about"))
    ensures id == ADD_POSITION_ID ==> r == Ok(OpenWindow("/new-position"))
    ensures !IsReservedId(id) ==>
      (r.Err? <==> forall i :: 0 <= i < |config.savedPositions| ==> config.savedPositions[i].name != id)
    ensures r.Err? ==> r == Err(Panic("Clicked element not found"))
    ensures r.Ok? && r.value.Resolved? ==>
      !IsReservedId(id) &&
      exists i :: 0 <= i < |config.savedPositions| && config.savedPositions[i] == Position(id, r.value.value) &&
        forall j :: 0 <= j < i ==> config.savedPositions[j].name != id
  {
    if id == QUIT_ID then Ok(Exit)
    else if id == ABOUT_ID then Ok(OpenWindow("/about"))
    else if id == ADD_POSITION_ID then Ok(OpenWindow("/new-position"))
    else
      var menus := GetMenuItemsFromConfig(config);
      match FindIndex(menus, (m: MenuConfigItem) => m.positionElem.id == id)
      case None => Err(Panic("Clicked element not found"))
      case Some(k) => Ok(Resolved(menus[k].name, menus[k].value))
  }

  /** With unique names, clicking a position's menu item resolves to that position. */
  lemma ClickResolvesPosition(config: ConfigData, k: nat)
    requires NamesUnique(config.savedPositions) && k < |config.savedPositions|
    requires !IsReservedId(config.savedPositions[k].name)
    ensures var p := config.savedPositions[k];
      HandleTrayClick(config, p.name) == Ok(Resolved(p.name, p.value))
  {
    var ps := config.savedPositions;
    var r := HandleTrayClick(config, ps[k].name);
    assert ps[k].name == ps[k].name;
    var i :| 0 <= i < |ps| && ps[i] == Position(ps[k].name, r.value.value) &&
      forall j :: 0 <= j < i ==> ps[j].name != ps[k].name;
    assert i == k;
  }

  /** A saved position named like a fixed entry ("quit", "about", "add_position") can never be resolved from the tray. */
  lemma ReservedNamesShadowPositions(config: ConfigData, id: string)
    requires IsReservedId(id)
    ensures HandleTrayClick(config, id).Ok? && !HandleTrayClick(config, id).value.Resolved?
  {
  }

  /**
   * The `setup` hook closes the main window exactly when some position has
   * been saved, that is when the tray's Positions submenu lists one.
   */
  function CloseWindowAtSetup(config: ConfigData): (close: bool)
    ensures close <==> |CreateMainTray(config)[2].entries| > 2
  {
    PositionsSubmenu(config);
    |config.savedPositions| > 0
  }

  /** Once `create_new_elem` succeeds, the next start-up closes the window at once. */
  lemma InsertCompletesInit(config: ConfigData, name: string, value: u16)
    ensures var r := InsertPosition(config.savedPositions, name, value);
      r.Some? ==> CloseWindowAtSetup(config.(savedPositions := r.value))
  {
  }
}
