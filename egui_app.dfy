/**
 * The native "Add new position" window (`MyApp`): a name field, a height
 * slider over the desk's range, an Add button and a duplicate-name dialog.
 * Only the state changes of `update` are modelled, not the drawing.
 */
module EguiApp {
  import opened Basics
  import opened Protocol
  import opened ConfigUtils

  class MyApp {
    var name: string
    var height: u16
    var errorDialogOpen: bool
    /** Whether `frame.close()` was called. */
    var frameClosed: bool

    /** The slider only offers heights in `[MIN_HEIGHT, MAX_HEIGHT]`. */
    predicate Valid()
      reads this
    {
      InHeightRange(height)
    }

    /** `MyApp::default`; its height lies inside the slider's range. */
    constructor ()
      ensures name == "Template name" && height == 7000 && !errorDialogOpen && !frameClosed
      ensures Valid()
    {
      name := "Template name";
      height := 7000;
      errorDialogOpen := false;
      frameClosed := false;
    }

    /**
     * The Add button: a saved position with exactly this name opens the
     * error dialog and nothing is written; otherwise the position is pushed
     * at the end, the config written and the frame closed.
     */
    method ClickAdd(file: ConfigFile)
      requires Valid()
      modifies this`errorDialogOpen, this`frameClosed, file
      ensures Valid() && name == old(name) && height == old(height)
      ensures match InsertPosition(old(file.stored).savedPositions, name, height)
        case None =>
          errorDialogOpen && frameClosed == old(frameClosed) &&
          file.stored == old(file.stored) && file.writes == old(file.writes)
        case Some(ps) =>
          errorDialogOpen == old(errorDialogOpen) && frameClosed &&
          file.stored == old(file.stored).(savedPositions := ps) && file.writes == old(file.writes) + 1
    {
      var newName := name;
      var newValue := height;
      var config := file.Get();
      var isDuplicate := FindIndex(config.savedPositions, (p: Position) => p.name == newName);
      match isDuplicate {
        case Some(_) =>
          errorDialogOpen := true;
        case None =>
          config := config.(savedPositions := config.savedPositions + [Position(newName, newValue)]);
          file.Update(config);
          frameClosed := true;
      }
    }

    /** The dialog's Ok button (only drawn while the dialog is open): close the dialog. */
    method ClickOk()
      requires errorDialogOpen
      modifies this`errorDialogOpen
      ensures !errorDialogOpen
    {
      errorDialogOpen := false;
    }
  }

  /** A rejected Add followed by Ok leaves the window as it was and the config unwritten. */
  method DuplicateThenOk(app: MyApp, file: ConfigFile)
    requires app.Valid() && !app.errorDialogOpen && HasName(file.stored.savedPositions, app.name)
    modifies app, file
    ensures !app.errorDialogOpen && app.frameClosed == old(app.frameClosed)
    ensures app.name == old(app.name) && app.height == old(app.height)
    ensures file.stored == old(file.stored) && file.writes == old(file.writes)
  {
    app.ClickAdd(file);
    app.ClickOk();
  }
}
