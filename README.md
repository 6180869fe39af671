# trayasen desk control, modelled in Dafny

trayasen is a tray application that drives an IKEA Idasen standing desk
over Bluetooth Low Energy. This project models its core and proves
properties of the model:

- **the desk protocol** (module `Protocol`, `protocol.dfy`). It covers the
  two GATT characteristic UUIDs, the 2-byte Up/Down/Stop payloads, the
  height range `[6200, 12700]` (tenths of a millimetre) and the 4-byte
  position/speed notification with its decoder. It also holds the error
  enum.
- **desk discovery** (module `Directory`). `search_adapter_for_desks`
  filters each adapter's peripherals by advertised local name: an exact
  name, or "contains `Desk`" when no name is given. `get_desks` joins the
  per-adapter lists and reports `CannotFindDevice` when the joined list is
  empty.
- **binding a desk** (module `Session`). This covers `Idasen::new` and
  `setup`: connect, discover services, find the first control and the
  first position characteristic, then subscribe to position. It also covers
  `get_post_chars`, the command writes and the position reads.
- **the seek controller** (module `Controller`). `move_to_target` is a
  closed loop. It reads the height, then returns on an exact hit, writes
  Stop within 100 units, or writes Up/Down, until the desk is in place.
- **saved positions and the tray** (modules `ConfigUtils` and `TrayMain`).
  These cover:
  - the insert rule of `create_new_elem` and of the native Add window;
  - the tray menu built from the saved positions;
  - the tray-click dispatch;
  - the names `get_avail_desks` lists;
  - the decision to close the main window at start-up.
- **the shared desk slot** (module `DeskMutex`), taken sequentially.
- **the "Add a new position" page** (module `NewPositionPage`). It holds the
  shortcut recorder driven by key events, with its shifted-key and modifier
  maps and its two-modifier limit. It also holds the Register and Clear
  buttons, and the Add button with its validation chain and backend call.
- **the native Add window** (module `EguiApp`): the default state and the
  Add and Ok transitions.

The BLE peripheral is a scripted object, `Session.Peripheral`:

- Every request that returns `()` takes its outcome from an `acks` queue:
  connect, discover services, subscribe and write.
- Every read takes the next reply from a `replies` queue.
- Every request is appended, with its outcome, to a `log`. This is what
  lets the lemmas say which commands are sent, in which order and after
  which reading.

Three conventions run through the model:

- Where the Rust code panics, the model returns `Error.Panic(reason)` so
  that the contracts can say when this happens. Such panics are an
  out-of-bounds index, a debug-build arithmetic overflow, and an `unwrap`
  or `expect` on an error. There are three exceptions. The `expect` of
  `get_desk_from_app_state` is a precondition of `DeskMutex.SharedDesk.Get`
  instead. The index and addition panics of `bytes_to_position_speed` are
  the precondition `Decodable` of `Protocol.BytesToPositionSpeed`; they are
  still modelled one level up, where `Session.SampleOfReply` returns them as
  `Panic`. The `expect`s on building, finding and closing windows
  (main.rs:85-86, 116, 131) are not modelled, because window creation is
  outside the model: `TrayMain.HandleTrayClick` only names the window to
  open.
- The config file is a `ConfigUtils.ConfigFile` object. It holds one parsed
  `ConfigData` and counts its writes.
- The height input of the web page reaches the model already converted by
  JavaScript's `Number`.

`move_to_target` casts each `u16` height to `i16`. A height above 0x7FFF
therefore reads as negative. The loop then either panics on the `i16`
subtraction or drives the desk Up (`Controller.DecideHighReading`). A
desk's own range never reaches such heights, so this is recorded as
behaviour, not as a defect.

## Model

| member | source | states |
|---|---|---|
| `Basics.FindIndex` | src-tauri/src/main.rs:19 | the index `iter().find` stops at: the first element that satisfies the predicate; `None` exactly when no element does |
| `Basics.ContainsAt` | src-tauri/src/broken_idasen.rs:122 | `str::contains` holds whenever the substring occurs at some offset |
| `Basics.ContainsOccurs` | src-tauri/src/broken_idasen.rs:122 | conversely, `str::contains` holds only when the substring occurs at some offset |
| `Protocol.Payload` | src-tauri/src/broken_idasen.rs:23-25 | Up is `[0x47, 0x00]`, Down `[0x46, 0x00]`, Stop `[0xFF, 0x00]` |
| `Protocol.CommandOf` | src-tauri/src/loose_idasen.rs:16-18 | reading a payload back: a recognised payload is the payload of the command returned; an unrecognised one is none of the three |
| `Protocol.PayloadInjective` | src-tauri/src/loose_idasen.rs:16-18 | two commands have the same payload exactly when they are the same command; `CommandOf` inverts `Payload` |
| `Protocol.AsI16` | src-tauri/src/broken_idasen.rs:263 | the `u16 as i16` cast keeps the value modulo 2^16 and leaves values below 0x8000 unchanged |
| `Protocol.LeU16` | src-tauri/src/broken_idasen.rs:48 | the definition: `u16::from_le_bytes`, low byte plus 256 times the high byte |
| `Protocol.LeI16` | src-tauri/src/broken_idasen.rs:49 | the definition: `i16::from_le_bytes`, the two's-complement reading of the same 16 bits |
| `Protocol.BytesToPositionSpeed` | src-tauri/src/broken_idasen.rs:47-51 | on at least 4 bytes whose offset does not overflow the `u16` addition, the decoded height is at least `MIN_HEIGHT` |
| `Protocol.DecodeEncode` | src-tauri/src/broken_idasen.rs:47-51 | every sample at or above `MIN_HEIGHT` is encoded into decodable bytes, and decoding them gives the sample back: height = little-endian u16 of bytes 0-1 plus 6200, speed = little-endian i16 of bytes 2-3 |
| `Protocol.EncodeDecode` | src-tauri/src/broken_idasen.rs:47-51 | decoding 4 decodable bytes and encoding the sample again gives the same bytes |
| `Protocol.DecodeFixtures` | src-tauri/src/broken_idasen.rs:41-45 | the five doc-test fixtures decode to 12700, 6200, 7305, 8256 and 12444, each with speed 0 |
| `Directory.NameMatches` | src-tauri/src/broken_idasen.rs:111-122 | the definition: a configured name must equal the advertised local name, a missing one reading as ""; with no name, a local name must be present and contain "Desk" |
| `Directory.FilterPeripherals` | src-tauri/src/broken_idasen.rs:108-131 | the definition: the first failing `properties()` call is the result; peripherals without properties are skipped; otherwise the matching peripherals in scan order |
| `Directory.SearchAdapterSpec` | src-tauri/src/broken_idasen.rs:105-131 | the definition: a failed scan start or peripheral listing is its transport error, otherwise the filtered peripherals |
| `Directory.JoinJobs` | src-tauri/src/broken_idasen.rs:89-92 | the definition: the first failed job panics, otherwise the lists are concatenated in adapter order |
| `Directory.Expand` | src-tauri/src/broken_idasen.rs:124-127 | the definition: the kept peripheral with its local name, a missing one as "" |
| `Directory.SearchAdapter` | src-tauri/src/broken_idasen.rs:101-132 | the push loop returns what `SearchAdapterSpec` says: a scan or peripheral-list error as a transport error, otherwise the filtered peripherals |
| `Directory.SearchAll` | src-tauri/src/broken_idasen.rs:85-87 | one search result per adapter, in adapter order |
| `Directory.GetDesksSpec` | src-tauri/src/broken_idasen.rs:80-98 | the definition: a failed adapter listing is its transport error; otherwise every adapter is searched and joined, and an empty join is `CannotFindDevice` |
| `Directory.GetDesks` | src-tauri/src/broken_idasen.rs:79-99 | the search and join loops return what `GetDesksSpec` says |
| `Directory.FilterFailsIffPropertiesFail` | src-tauri/src/broken_idasen.rs:109-110 | filtering fails exactly when some peripheral's `properties()` failed, and then with a transport error |
| `Directory.FilterKeepsExactlyMatching` | src-tauri/src/broken_idasen.rs:110-128 | every peripheral with properties that pass the name test is in the result, everything in the result is such a peripheral, and peripherals without properties are skipped |
| `Directory.FilterByExactName` | src-tauri/src/broken_idasen.rs:111-121 | with `Some(n)` every desk kept advertises exactly `n`, a missing name counting as "" |
| `Directory.FilterByKeyword` | src-tauri/src/broken_idasen.rs:122 | with no name every desk kept advertises a name containing "Desk" |
| `Directory.JoinJobsOutcome` | src-tauri/src/broken_idasen.rs:89-92 | the join panics exactly when some adapter search failed; otherwise it is the concatenation in adapter order, empty exactly when every search found nothing |
| `Directory.GetDesksNotFound` | src-tauri/src/broken_idasen.rs:85-98 | `CannotFindDevice` exactly when every adapter was searched without error and none found a desk; a panic exactly when some adapter search failed |
| `Directory.JoinedNamesFit` | src-tauri/src/broken_idasen.rs:89-92 | joining keeps the name property of every per-adapter list |
| `Directory.GetDesksNamesFit` | src-tauri/src/broken_idasen.rs:79-132 | a successful `get_desks` is non-empty, and each desk advertises the requested name, or a name containing "Desk" when none was requested |
| `Directory.FilterScenario` | src-tauri/src/broken_idasen.rs:111-128 | filtering for "Desk A" among "Desk A" and "Desk B" finds exactly "Desk A" |
| `Session.FindCharacteristic` | src-tauri/src/loose_idasen.rs:60-65 | `iter().find` on UUID: the first characteristic with that UUID, `None` exactly when there is none |
| `Session.Bind` | src-tauri/src/broken_idasen.rs:183-195 | control is looked up before position; `CharacteristicsNotFound("Control")` exactly when no control UUID is present, `("Position")` exactly when control is present and position is not; on success both are the first of their UUID and are distinct |
| `Session.GetPostChars` | src-tauri/src/loose_idasen.rs:86-93 | the first control characteristic; a panic exactly when there is none |
| `Session.SetupSpec` | src-tauri/src/loose_idasen.rs:55-84 | the definition: connect, discover, bind control then position, subscribe, each failure ending the sequence with its error |
| `Session.Setup` | src-tauri/src/loose_idasen.rs:55-84 | result, requests logged, acks consumed and discovered characteristics are those of `SetupSpec` (the same sequence as `Idasen::new`) |
| `Session.SetupOrder` | src-tauri/src/loose_idasen.rs:56-58 | connect is the first request, discovery the second, subscribe the third; every request before the last succeeded |
| `Session.SetupMissingCharacteristic` | src-tauri/src/loose_idasen.rs:60-72 | a missing characteristic is reported only after a successful connect and discovery, as `Bind` reports it; "Control" exactly when both succeeded and no control UUID is present; "Position" exactly when both succeeded, a control UUID is present and no position UUID is; after both succeeded a failed lookup is the result |
| `Session.SetupTransportError` | src-tauri/src/loose_idasen.rs:56-58 | a transport error comes from the failed connect or discovery, is that request's error, and leaves the characteristics as they were; conversely a failed connect or discovery is returned as `BtlePlugError` with its error |
| `Session.SetupSubscribe` | src-tauri/src/loose_idasen.rs:74-83 | `CannotSubscribePosition` exactly when both lookups succeeded and the subscribe failed; on success the position characteristic was subscribed |
| `Session.SendCommand` | src-tauri/src/broken_idasen.rs:209-240 | `up`, `down` and `stop` write exactly the command's payload to the bound control characteristic, without response, and return the write's outcome |
| `Session.LooseUp` | src-tauri/src/loose_idasen.rs:96-101 | with no control characteristic: a panic and nothing written; otherwise `[0x47, 0x00]` is written without response to the first control characteristic and the write's outcome is returned |
| `Session.SampleOfReply` | src-tauri/src/broken_idasen.rs:47-51 | a read error is returned unchanged; a reply decodes exactly when it is decodable; other replies panic (fewer than 2 bytes, then the overflowing addition, then fewer than 4 bytes) |
| `Session.ShortReplyPanics` | src-tauri/src/broken_idasen.rs:48-49 | a 3-byte reply with an overflowing offset panics on the addition, and 1- or 3-byte replies otherwise panic on indexing |
| `Session.PositionAndSpeed` | src-tauri/src/broken_idasen.rs:296-300 | one read of the position characteristic, decoded |
| `Session.Position` | src-tauri/src/broken_idasen.rs:291-294 | the height part of `position_and_speed`, its error unchanged |
| `Controller.Decide` | src-tauri/src/broken_idasen.rs:264-285 | the definition: equal returns, an `i16` subtraction or `abs` overflow panics, within 100 Stop, below Up, above Down |
| `Controller.SeekLoop` | src-tauri/src/broken_idasen.rs:261-286 | the definition: read, decide, write, until a return, an error, an overflow or an acknowledged Stop |
| `Controller.MoveToTargetSpec` | src-tauri/src/broken_idasen.rs:253-289 | the definition: the range check, the initial read, then `SeekLoop` |
| `Controller.MoveToTarget` | src-tauri/src/broken_idasen.rs:247-289 | result, requests logged and both scripts consumed are those of `MoveToTargetSpec` |
| `Controller.SeekRound` | src-tauri/src/broken_idasen.rs:263-285 | one loop round logs exactly what `SeekLoop` sends in that round: an error, `Equal`, an overflow, a failed write or a Stop finish the seek with `SeekLoop`'s result, and an Up or Down leaves the rest of the seek to `SeekLoop` on the remaining scripts |
| `Controller.DecisionCommanded` | src-tauri/src/broken_idasen.rs:264-285 | a round that moves writes Up exactly when the target is more than 100 above the reading, Down exactly when more than 100 below, Stop exactly when within 100 and not equal |
| `Controller.SeekLoopShape` | src-tauri/src/broken_idasen.rs:261-286 | each round reads position first; every write follows a good reading and is Up above the tolerance window, Down below it, Stop inside it; a reading is followed by at most one write, and nothing follows a failure or a Stop |
| `Controller.SeekLoopEnd` | src-tauri/src/broken_idasen.rs:264-288 | the loop ends `Ok` exactly when its last request is a reading equal to the target or an acknowledged Stop; a transport error is the last request's error, and a failed last request makes its error the result |
| `Controller.MoveToTargetOutOfRange` | src-tauri/src/broken_idasen.rs:253-255 | a target outside `[6200, 12700]` gives `PositionNotInRange` with no request sent and nothing consumed |
| `Controller.MoveToTargetLog` | src-tauri/src/broken_idasen.rs:258-286 | the whole seek: an initial read, used only for logging, so a loop read follows it; then reads of position and writes (without response) to control only, each write the command its preceding reading calls for, at most one write per reading, only the last request failing and only the last being a Stop |
| `Controller.MoveToTargetSuccess` | src-tauri/src/broken_idasen.rs:264-280 | a loop reading equal to the target ends the seek at once with `Ok` and no Stop; `Ok` exactly when the last request is such a reading or an acknowledged Stop |
| `Controller.MoveToTargetTransportError` | src-tauri/src/broken_idasen.rs:258-284 | a transport-error result is the error of the last request, which failed; conversely when the last request (a read or a Stop/Up/Down write) failed, the seek returns exactly `BtlePlugError` of its error, with no retry |
| `Controller.DecideInRange` | src-tauri/src/broken_idasen.rs:264-285 | for heights in the desk's range there is no overflow: equal means return, within 100 Stop, below the target Up, above it Down |
| `Controller.DecideHighReading` | src-tauri/src/broken_idasen.rs:263-269 | a height of 0x8000 or more is cast to a negative `i16`, so the round panics on the subtraction or writes Up |
| `Controller.SeekLoopConverges` | src-tauri/src/broken_idasen.rs:261-286 | against readings that approach the target (all in range, only the last within 100) with every write acknowledged, the loop ends `Ok`, consumes every reply and writes one Up or Down per reading before the last |
| `Controller.MoveToTargetApproach` | src-tauri/src/broken_idasen.rs:253-289 | with an initial reading followed by approaching readings and every write acknowledged, the whole seek ends `Ok`, consumes every reply and writes one Up or Down per loop reading before the last |
| `Controller.MoveToTargetConverges` | src-tauri/src/broken_idasen.rs:247-289 | against a desk moving `step <= 200` units per round towards the target, the whole seek ends `Ok`, consumes every reply, writes one Up or Down per trajectory height before the last, and its last reading is within 100 units of the target |
| `Controller.TrajectoryBound` | src-tauri/src/broken_idasen.rs:277-285 | such a desk's trajectory has at most ceil(distance / step) heights before the one within tolerance, so at most that many Up or Down commands are sent |
| `ConfigUtils.InsertPosition` | src-tauri/src/main.rs:19-33 | `None` (duplicate) exactly when some saved position has exactly that name; otherwise the list is unchanged with the new position appended at the end |
| `ConfigUtils.InsertKeepsNamesUnique` | src-tauri/src/main.rs:19-33 | unique names stay unique after an insert, and inserting the same name again is a duplicate |
| `ConfigUtils.ConfigFile.Get` | src-tauri/src/config_utils.rs:128-139 | `get_config` returns the stored config |
| `ConfigUtils.ConfigFile.Update` | src-tauri/src/config_utils.rs:141-150 | `update_config` replaces the stored config and counts one write |
| `ConfigUtils.MenuItemOf` | src-tauri/src/config_utils.rs:163-175 | the definition: the menu item of one saved position, its id and title both the position's name |
| `ConfigUtils.GetMenuItemsFromConfig` | src-tauri/src/config_utils.rs:159-177 | one item per saved position, in order, with its name, value, title and menu id and title all taken from the position |
| `ConfigUtils.AddPositionItems` | src-tauri/src/config_utils.rs:206-208 | the definition: the builder loop, adding each item's menu entry in turn |
| `ConfigUtils.AddPositionItemsAppends` | src-tauri/src/config_utils.rs:205-208 | the builder loop keeps what was there and appends one menu item per position item, in order |
| `ConfigUtils.CreateMainTray` | src-tauri/src/config_utils.rs:196-227 | the main menu is: the disabled header "idasen_controller", a separator, the Positions submenu, a separator, About ("about") and Quit ("quit") |
| `ConfigUtils.PositionsSubmenu` | src-tauri/src/config_utils.rs:197-212 | the Positions submenu is the add-position item, a separator, then one enabled item per saved position in config order, its id and title the position's name |
| `TrayMain.CreateNewElem` | src-tauri/src/main.rs:15-36 | an existing name gives "duplicate" and no write; otherwise the position is appended, the config written once and "success" returned |
| `TrayMain.GetAvailDesks` | src-tauri/src/main.rs:40-48 | the names of the discovered desks, one per desk in discovery order; a discovery error panics |
| `TrayMain.AvailDesksAreDesks` | src-tauri/src/main.rs:42-43 | a listed result is non-empty and every name contains "Desk" |
| `TrayMain.HandleTrayClick` | src-tauri/src/main.rs:98-165 | quit exits, about and add_position open their routes; any other id resolves to the first position of the config read at click time with that name, and panics exactly when there is none |
| `TrayMain.ClickResolvesPosition` | src-tauri/src/main.rs:148-156 | with unique names, clicking a position's item resolves to exactly that position |
| `TrayMain.ReservedNamesShadowPositions` | src-tauri/src/main.rs:99-132 | a position named "quit", "about" or "add_position" is never resolved: the fixed entry wins |
| `TrayMain.CloseWindowAtSetup` | src-tauri/src/main.rs:79-88 | the window is closed at start-up exactly when the Positions submenu lists a position, that is when the config holds one |
| `TrayMain.InsertCompletesInit` | src-tauri/src/main.rs:24-33 | once an insert succeeded, the next start-up closes the window |
| `DeskMutex.SharedDesk.Assign` | src-tauri/src/desk_mutex.rs:17-25 | the new value replaces the held one, `Ok` or `Err` |
| `DeskMutex.SharedDesk.Get` | src-tauri/src/desk_mutex.rs:8-15 | only on an `Ok` slot (the source panics on `Err`): the held desk, with the slot left as it was |
| `DeskMutex.LastAssignWins` | src-tauri/src/desk_mutex.rs:17-25 | after two assigns the slot holds, and get returns, the second |
| `NewPositionPage.UnshiftedOf` | src/NewPositionPage.tsx:22-44 | the definition: `lowercaseMap`, the 21 shifted symbols and the keys they are typed with |
| `NewPositionPage.NormaliseKey` | src/NewPositionPage.tsx:79 | the definition: `lowercaseMap.get(key) \|\| key` |
| `NewPositionPage.NormaliseKeyIdempotent` | src/NewPositionPage.tsx:22-44 | normalising a key twice is normalising it once; a shifted symbol becomes a different single character |
| `NewPositionPage.NormaliseKeyExamples` | src/NewPositionPage.tsx:79 | "!" becomes "1", "?" becomes "/", "\"" becomes "'"; keys that are not one-character shifted symbols pass through |
| `NewPositionPage.SplitPlus` | src/NewPositionPage.tsx:83 | `split("+")` always yields at least one part |
| `NewPositionPage.JoinSplit` | src/NewPositionPage.tsx:83 | splitting on "+" and joining again gives the string back |
| `NewPositionPage.SplitNoPlus` | src/NewPositionPage.tsx:83 | a string without "+" is a single part |
| `NewPositionPage.SplitPair` | src/NewPositionPage.tsx:104 | two "+"-free keys joined with "+" split into exactly those two |
| `NewPositionPage.AppendKey` | src/NewPositionPage.tsx:104 | the definition: the previous shortcut and the key joined by "+", or the key alone when there is no previous shortcut |
| `NewPositionPage.KeystrokeStep` | src/NewPositionPage.tsx:68-120 | the definition: one call of the key handler, its new shortcut and status text, and whether it prevents the default action |
| `NewPositionPage.KeystrokeCases` | src/NewPositionPage.tsx:68-120 | the key handler case by case: ignored when already handled or not capturing; a modifier restarts the shortcut as itself exactly when it repeats the single key, the shortcut has two parts or is empty, and is otherwise appended with capturing going on; any other key is appended, becomes the status text and is consumed |
| `NewPositionPage.ModifierKeysArePlain` | src/NewPositionPage.tsx:10-18 | no modifier key is empty or contains "+" |
| `NewPositionPage.KeystrokeKeepsModifierLimit` | src/NewPositionPage.tsx:83-107 | while capturing, the shortcut stays empty or at most two modifiers; every key event keeps this |
| `NewPositionPage.RecorderScenario` | src/NewPositionPage.tsx:79-117 | Control, Shift, "!" from an empty capture gives "Control", "Control+Shift", then "Control+Shift+1" with capturing ended and the event consumed |
| `NewPositionPage.RecorderRestartScenario` | src/NewPositionPage.tsx:84-101 | a third modifier restarts the shortcut, and so does a repeated single one |
| `NewPositionPage.Validate` | src/NewPositionPage.tsx:192-203 | empty name first, then a non-number or zero, then a value outside `[6200, 12700]`; no error exactly when the name is non-empty and the value a finite number in range |
| `NewPositionPage.NewPositionForm.constructor` | src/NewPositionPage.tsx:59-66 | empty name, value "7200", no error, empty shortcut, the initial button text |
| `NewPositionPage.NewPositionForm.ChangeName` | src/NewPositionPage.tsx:133-137 | the name becomes the input's value |
| `NewPositionPage.NewPositionForm.ChangeValue` | src/NewPositionPage.tsx:139-143 | the value becomes the input's value |
| `NewPositionPage.NewPositionForm.KeyDown` | src/NewPositionPage.tsx:68-120 | shortcut, status text and `preventDefault` are those of one `KeystrokeStep`, and the two-modifier limit is kept |
| `NewPositionPage.NewPositionForm.Register` | src/NewPositionPage.tsx:128-131 | empty shortcut, capturing |
| `NewPositionPage.NewPositionForm.Clear` | src/NewPositionPage.tsx:176-179 | empty shortcut, the initial button text |
| `NewPositionPage.NewPositionForm.ClickAdd` | src/NewPositionPage.tsx:191-218 | a validation error is shown and nothing else happens; otherwise the error is cleared and `create_new_elem` called; a fractional height is rejected by the command; "duplicate" shows the duplicate error and writes nothing; success appends the position, writes once and closes the window |
| `EguiApp.MyApp.constructor` | src/egui_utils.rs:14-22 | "Template name", height 7000 (inside the slider's range), dialog closed |
| `EguiApp.MyApp.ClickAdd` | src/egui_utils.rs:54-80 | a duplicate name opens the error dialog, writes nothing and keeps the window open; a new name appends `Position{name, height}`, writes once and closes the frame; the height stays in range |
| `EguiApp.MyApp.ClickOk` | src/egui_utils.rs:46-48 | the Ok button closes the error dialog and changes nothing else |
| `EguiApp.DuplicateThenOk` | src/egui_utils.rs:38-80 | a refused Add followed by Ok leaves the window and the config as they were |

## Left out

- The btleplug manager, adapter enumeration, `start_scan` and the peripheral API are calls into a foreign library. An `Adapter` value and the scripted `Session.Peripheral` stand for what they return.
- The 2-second scan wait and the 200 ms sleep between seek rounds are timing only.
- The `ProgressBar` argument and `println!` logging have no effect on results.
- `move_to` (broken_idasen.rs:243-245) only calls `move_to_target` without a progress bar, so it is not modelled separately.
- The tokio runtime, async/await, and mutex locking and poisoning are concurrency concerns. The desk slot is modelled sequentially.
- Config file I/O is left out: path resolution through a shell, reading and writing the file, and JSON (de)serialisation. `ConfigUtils.ConfigFile` stands for the file; `load_config`, `save_mac_address` and `src/config_utils.rs` are not part of this model.
- `Controller.SeekLoop`: an exhausted reply script answers `NotConnected`, so the model cannot describe a desk that never stops answering and never reaches its target. The source would loop forever against such a desk.
- Overflow is modelled with debug-build semantics (a panic). A release build would wrap instead.
- `get_avail_desks` (main.rs:41-48) reads `.name` from what `get_list_of_desks` returns. That function is declared to return `Vec<impl Peripheral>` (local_idasen.rs:18), which has no `name`, so this code is not consistent as written. `TrayMain.GetAvailDesks` reads the name of the `ExpandedPeripheral` values that `get_desks` finds, which is the evident intent.
- `Session.Binding` leaves out the `mac_addr` field that `setup` and `Idasen::new` fill from `desk.address()` (broken_idasen.rs:179, 203; loose_idasen.rs:56, 80). Nothing in the modelled core reads it back.
- `MacAddrParseFailed` is not modelled. It comes only from MAC-address parsing in `local_idasen.rs`, which, apart from the panic `get_avail_desks` inherits, is not part of this model.
- `src-tauri/src/main.rs` is not consistent with `src-tauri/src/config_utils.rs`. It calls `get_or_create_config`, `create_main_tray_menu` and `remove_position`, reads `config.local_name`, and matches `MANAGE_POSITIONS_ID`; `config_utils.rs` defines none of these. The manage-positions tray branch is therefore left out, and the tray is modelled after `create_main_tray`.
- Moving the desk after a tray click is commented out in the source, so a click resolves to a position and nothing more.
- `NewPositionPage.NewPositionForm.ClickAdd` takes the result of JavaScript's `Number(value)` as an input (`JsNumber`). The string-to-number grammar is not modelled.
- The web page reads its height bounds from a module that is not part of this model. The bounds are taken as 6200 and 12700, which is what its error text states.
- The shortcut argument is dropped by the `createNewElem` wrapper (src/rustUtils.ts:33-38) and never reaches the backend, so it is not passed on in `ClickAdd`.
- The egui slider and text-edit drawing are left out. The slider's range is kept as the invariant `EguiApp.MyApp.Valid`.
- The remaining React views, `src/main.rs`, `tray_utils.rs` and the window and event-loop code are outside the modelled core.
- The commented-out code in `broken_idasen.rs` and `loose_idasen.rs` is not modelled.
