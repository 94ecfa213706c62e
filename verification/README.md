# Remote-controlled 3D model viewer — decision logic in Dafny

This project models the browser side of a remote-controlled 3D model viewer.

Viewer pages show uploaded glTF/STL/OBJ/FBX models. A controller page takes control through a socket relay and publishes its camera and scene settings to every viewer. Users upload models through a size/type/duplicate-checked picker and a pre-signed upload handshake. An admin page browses and deletes entries.

Each React component is modelled as a pure step function. It takes the component state and one input (a socket event, a user action, a timer second or a render frame) and returns the new state and the socket events emitted, in emission order. Runs of inputs are folded on their last element.

The properties are proved over those folds:

- **Arbitration**:
  - control follows the last grant or denial;
  - `request_control` goes out at most once;
  - camera and settings events are published only under a grant.
- **Pickers**: the order of the checks, their error messages, and the exact acceptance condition.
- **Handshake**: every `upload_complete` answers an earlier request.
- **Loaders**: first-match suffix dispatch, and the stale-load guard.
- **Textures**: texture candidate order.
- **Viewers**:
  - the index-range invariant;
  - auto-switch timing;
  - the camera round trip from controller to viewer.
- **Light**: the colour round trip `"#rrggbb"` → `parseInt(…, 16)`.

Modules:

- `Base`: `Option`, `endsWith`, `findIndex`, occurrence counts.
- `Values`: JavaScript values, truthiness, property reads and `{...prev, [k]: v}`.
- `Relay`: the events sent to the relay, the camera sample and the catalog entry.
- `UploadValidation`: both file pickers and the upload MIME override.
- `UploadPage`: the stand-alone upload page.
- `Handshake`: the pre-signed upload handshake shared by both controllers.
- `Arbitration`: control arbitration.
- `ControlPage`, `ControllerPage`, `CameraSync`, `Sidebar`, `SelectModels`: the controller side.
- `ModelLoader`, `ModelPage`, `ModelPage2`, `Showcase`: the viewer side.
- `AdminPage`: the admin page.
- `Light` and `HexColor`: the scene lights and colour parsing.

Numbers are JavaScript doubles; every constant the components use is exact as a `real`, so they are modelled as `real`. The size test `size / 1024 / 1024 > 25` is proved equal to `size > 26214400` (`UploadValidation.TooLarge`).

The controller publishes a `camera_update` on every render frame while it holds control, whether or not the camera moved (`ControlPage.EveryFramePublishes`, `CameraSync.OneEventPerFrame`).

## Model

| member | source | states |
|---|---|---|
| Values.IndexGuardSkipsZero | src/components/control/SidebarAndUpload.tsx:108-110 | the `if (currentIndex)` guard (also src/pages/AdminPage.tsx:46 and src/components/control/SeletModels.tsx:40) passes a numeric index exactly when it is not 0; undefined, null and NaN never pass |
| Values.Merge | src/components/control/SidebarAndUpload.tsx:56-62 | `updateSetting(k, v)` makes `k` read `v` and every other key read what it read before |
| Values.MergeLastWins | src/components/control/SidebarAndUpload.tsx:56-58 | two updates of one key keep only the later value |
| Values.MergeCommutes | src/components/control/SidebarAndUpload.tsx:56-62 | updates of different keys commute |
| UploadValidation.TooLarge | src/components/control/FileUpload.tsx:34-36 | `size/1024/1024 > 25` holds exactly for sizes above 26,214,400 bytes, so exactly 25 MB passes |
| UploadValidation.HasModelExtensionIffListed | src/components/control/FileUpload.tsx:39-45 | the five chained `endsWith` tests accept exactly the names ending, case-sensitively, in one of .glb, .gltf, .stl, .obj, .fbx |
| UploadValidation.OnFileChange | src/components/control/FileUpload.tsx:30-59 | no file leaves the state alone; the size error comes first, then the type error, then the duplicate-name error, each clearing the file; a file is accepted with the error cleared exactly when it passes all three checks |
| UploadValidation.SelectionCallback | src/components/control/FileUpload.tsx:20-28 | `onFileSelect` is called exactly when a file is held, with the typed author or "Anonymous" |
| UploadValidation.AuthorOrAnonymous | src/components/control/FileUpload.tsx:22-26 | the reported author is never empty and is the typed one when there is one |
| UploadValidation.OnAuthorChange | src/components/control/FileUpload.tsx:107-109 | typing changes the author only |
| UploadValidation.OnRemove | src/components/control/FileUpload.tsx:69-72 | remove clears both the file and the error and keeps the author |
| UploadValidation.RemoveThenPickRestores | src/components/control/FileUpload.tsx:30-72 | removing an accepted file and picking it again gives the same picker state |
| UploadValidation.OnLegacyFileChange | src/components/FileUpload.tsx:12-33 | the older picker checks size before type, accepts only .glb/.gltf, and calls `onFileSelect` exactly on acceptance, with any earlier error cleared |
| UploadValidation.LegacyAcceptanceImpliesCurrent | src/components/FileUpload.tsx:18-31 | what the older picker accepts, the current picker accepts unless the name is taken |
| UploadValidation.UploadMimeType | src/pages/p3/UploadPage.tsx:26-31 | the uploaded type is "model/gltf-binary" for an empty type or a .glb name, and the original type otherwise |
| UploadValidation.UploadTypeIdempotent | src/pages/p3/UploadPage.tsx:26-31 | overriding the type of an already overridden file changes nothing |
| UploadPage.PickFirst | src/pages/p3/UploadPage.tsx:8-21 | choose and drop take the first file of a non-empty list; an empty list changes nothing |
| UploadPage.HandleUpload | src/pages/p3/UploadPage.tsx:23-57 | no file: no request and no status; otherwise "Requesting…" first; "Uploading to S3…" exactly when the pre-signed POST succeeded; success or "Upload failed…"; "" last; the file is cleared only on success |
| UploadPage.RetryResendsSameFile | src/pages/p3/UploadPage.tsx:44-51 | after a failure the next upload sends the very same file and type |
| UploadPage.SuccessLeavesNothingToUpload | src/pages/p3/UploadPage.tsx:24-44 | after a success a second press makes no request |
| Handshake.Click | src/pages/ControlPage.tsx:53-60 | no file does nothing; otherwise "📤 Uploading...", one `request_presigned_url` {fileName, fileType} and one listener for each reply |
| Handshake.OnPresignedUrl | src/pages/ControlPage.tsx:62-80 | an OK PUT shows "✅ Upload successful!" and emits one `upload_complete` per pending listener; a failed PUT shows "❌ Upload failed!" and emits nothing |
| Handshake.OnPresignedUrlError | src/pages/ControlPage.tsx:81-83 | a pending error listener shows "❌ Error: " followed by the message |
| Handshake.Close | src/components/control/SidebarAndUpload.tsx:428-434 | closing the modal clears the file and the status line |
| Handshake.CompletionsFollowRequests | src/pages/ControlPage.tsx:53-84 | from idle, the `upload_complete` events plus the pending listeners never exceed the `request_presigned_url` events sent |
| Arbitration.React | src/pages/ControlPage.tsx:215-221 | mount requests control once per instance; a grant sets `hasControl`, a denial clears it |
| Arbitration.HasControlIsLastVerdict | src/pages/ControlPage.tsx:212-221 | `hasControl` starts false and holds exactly when the last verdict was a grant |
| Arbitration.RequestedOnce | src/pages/ControlPage.tsx:213-219 | `request_control` is emitted once if the page mounted, never twice |
| ControlPage.OnSignal | src/pages/ControlPage.tsx:212-221 | the page's arbiter moves exactly as the arbitration logic does, `request_control` goes out as often as it does, and any settings event sent on mount is sent in control |
| ControlPage.SettingsEffect | src/pages/ControlPage.tsx:86-94 | `settings_update` {autoChange, orbitControls} is emitted exactly when in control |
| ControlPage.OnFrame | src/pages/ControlPage.tsx:30-37 | a frame emits `camera_update` {position, rotation}, without zoom, exactly when in control with a camera |
| ControlPage.OnFlip | src/pages/ControlPage.tsx:112-146 | a checkbox flips exactly its own flag and publishes the new settings exactly when in control |
| ControlPage.OnModal | src/pages/ControlPage.tsx:53-84 | the picker hands only an accepted file to the handshake; the modal emits only handshake events; closing resets only the picker |
| ControlPage.Step | src/pages/ControlPage.tsx:210-254 | any gated event (camera or settings) is emitted only when the state after the step is in control |
| ControlPage.ArbiterFollowsSignals | src/pages/ControlPage.tsx:212-221 | the page's arbiter equals the arbitration logic fed the page's control signals |
| ControlPage.RequestsFollowSignals | src/pages/ControlPage.tsx:213-219 | the page emits `request_control` exactly as often as the arbitration logic does |
| ControlPage.ControlIsLastVerdict | src/pages/ControlPage.tsx:212-221 | over any run, `hasControl` holds exactly when the last verdict was a grant |
| ControlPage.ControlRequestedAtMostOnce | src/pages/ControlPage.tsx:213-219 | over any run, `request_control` is emitted at most once |
| ControlPage.GatedOnlyUnderGrant | src/pages/ControlPage.tsx:30-94 | each camera or settings event in a run is emitted at a point where the last verdict received is a grant |
| ControlPage.EveryFramePublishes | src/pages/ControlPage.tsx:30-37 | two identical frames in control give two identical `camera_update` events |
| ControllerPage.SphereRadius | src/pages/ControllerPage.tsx:12-19 | radius 1 below width 600, 1.5 in [600, 1024), 2 from 1024 |
| ControllerPage.RadiusMonotone | src/pages/ControllerPage.tsx:13-18 | a wider window never gives a smaller sphere |
| ControllerPage.Step | src/pages/ControllerPage.tsx:40-79 | arbitration inputs act as the arbiter; a frame emits `camera_update` without zoom exactly when in control with a camera |
| ControllerPage.PageIsArbiter | src/pages/ControllerPage.tsx:41-64 | the page state and its `request_control` count are those of the arbitration logic fed its signals |
| ControllerPage.PublishesOnlyUnderGrant | src/pages/ControllerPage.tsx:66-78 | a frame publishes only when the last verdict is a grant, and `request_control` goes out at most once |
| CameraSync.OnFrame | src/components/control/CameraSync.tsx:4-16 | at most one event per frame, a `camera_update` exactly when in control, carrying position, quaternion and zoom verbatim |
| CameraSync.OneEventPerFrame | src/components/control/CameraSync.tsx:6-14 | over a run of frames in control, event `i` is frame `i`'s camera; out of control nothing is sent |
| Sidebar.Publish | src/components/control/SidebarAndUpload.tsx:153-163 | the whole settings object goes out as `settings_update` and the camera object as `settings_update_local`, each only in control and when changed |
| Sidebar.OnRelay | src/components/control/SidebarAndUpload.tsx:106-151 | falsy `update_index` values, 0 included, are ignored and truthy ones become `currentModelIndex`; `model_uploaded` turns autoSwitch off and sends `get_files` first, before any settings are published; `files_list` replaces the list; gaining control publishes both objects |
| Sidebar.HandOver | src/components/control/SidebarAndUpload.tsx:64-67 | `handleMetadata` stores the picker's file and author |
| Sidebar.OnModal | src/components/control/SidebarAndUpload.tsx:69-104 | Upload requests a URL for the selected file and records the author for `upload_complete`; Upload Model opens the modal only in control; Close empties the file, the status and the picker; a pick goes through the picker with the list's names when given them and through the picker without `modelsName` otherwise |
| Sidebar.StepWith | src/components/control/SidebarAndUpload.tsx:20-163 | whatever the picker is given, every gated event is sent in control, and every published object is the state's current one |
| Sidebar.Step | src/components/control/SidebarAndUpload.tsx:20-413 | the page as rendered: gated events only in control, published objects current, and a pick never gives the picker a file it did not already hold |
| Sidebar.StepCorrected | src/components/control/SidebarAndUpload.tsx:405-413 | the page with the picker given the list's ids: a pick is judged by the full picker, duplicate names included |
| Sidebar.StepKeepsNothingToUpload | src/components/control/SidebarAndUpload.tsx:69-104 | as rendered, with no file picked and no URL pending, every input keeps it so and sends no upload request or completion |
| Sidebar.RenderedPageNeverUploads | src/components/control/SidebarAndUpload.tsx:20-413 | as rendered, no run from a fresh page ever sends `request_presigned_url` or `upload_complete` |
| Sidebar.UploadRefreshesList | src/components/control/SidebarAndUpload.tsx:118-151 | `model_uploaded` sends `get_files` first; after the reply the list is the reply (also an empty one), and autoSwitch is false |
| Sidebar.GainingControlPublishesBoth | src/components/control/SidebarAndUpload.tsx:153-163 | gaining control publishes settings then camera settings; losing it publishes nothing |
| Sidebar.PublishedSettingsAreCurrent | src/components/control/SidebarAndUpload.tsx:153-157 | in any run, a `settings_update` carries the settings right after its input and is sent in control |
| Sidebar.OnFileChangeUnbound | src/components/control/SidebarAndUpload.tsx:410-413 | as rendered, without `modelsName`, the picker never takes a new file |
| Sidebar.UnboundPickerNeverAccepts | src/components/control/SidebarAndUpload.tsx:410-413 | as rendered, no sequence of picks ever leaves a file selected |
| Sidebar.FreshModelRejectedAsRendered | src/components/control/SidebarAndUpload.tsx:410-413 | a 1 KB "chair.glb" is accepted when the picker gets the list's ids and rejected as rendered |
| SelectModels.Displayed | src/components/control/SeletModels.tsx:28 | the displayed list is the curated one exactly for "tuke-models" |
| SelectModels.Source | src/components/control/SeletModels.tsx:29-30 | the details list is the curated one exactly when the source is "tuke-models" |
| SelectModels.SendEffect | src/components/control/SeletModels.tsx:50-55 | when `canSend` becomes true, in control the selection is published once and `canSend` resets; out of control nothing is sent |
| SelectModels.Step | src/components/control/SeletModels.tsx:34-124 | `update_index` applies only a truthy index without control; a click sets source and index, and turns autoSwitch off exactly for lists shorter than 2; at most one `model_settings_update`, only in control |
| SelectModels.HighlightAfterClick | src/components/control/SeletModels.tsx:110-124 | after clicking item `i`, item `j` is highlighted exactly when `j = i` and the item's folder names the displayed list |
| SelectModels.StuckAfterClickWithoutControl | src/components/control/SeletModels.tsx:50-55 | once `canSend` stays set, nothing is ever published again, even after control is gained |
| SelectModels.OnePublishPerClick | src/components/control/SeletModels.tsx:117-124 | in control from the start, the number of `model_settings_update` events equals the number of clicks |
| ModelLoader.LoaderFor | src/components/model/Model.tsx:148-168 | some loader is chosen exactly for the names the upload picker accepts, and the glTF loader exactly for the .glb/.gltf names of the older picker |
| ModelLoader.FirstMatch | src/components/model/Model.tsx:148-168 | the kind of the first suffix row that ends the URL; none when no row matches |
| ModelLoader.DispatchIsFirstMatch | src/components/model/Model.tsx:148-168 | the `if` chain picks the first matching row of .gltf, .glb, .stl, .obj, .fbx |
| ModelLoader.SuffixesExclusive | src/components/model/Model.tsx:148-164 | no URL ends in two of the suffixes |
| ModelLoader.Settle | src/components/model/Model.tsx:146-172 | an inactive run, a failed load or an unknown suffix leaves the model; otherwise it becomes the loaded object of the suffix's kind |
| ModelLoader.ChangeUrl | src/components/model/Model.tsx:174-179 | the cleanup deactivates every earlier run and a new active run starts |
| ModelLoader.StaleResultIgnored | src/components/model/Model.tsx:143-179 | a load that settles after its run was cleaned up never changes the model |
| ModelLoader.ResolveValid | src/components/model/Model.tsx:143-179 | only the latest run can change the model, and the model shown always matches its URL's loader |
| ModelLoader.Rendered | src/components/model/Model.tsx:245 | nothing is rendered while the model is null |
| ModelLoader.EffectiveFolder | src/components/model/Model.tsx:22 | the texture folder defaults to "grass" |
| ModelLoader.FirstAvailable | src/components/model/Model.tsx:98-120 | candidates are tried in order and the first that loads is kept |
| ModelLoader.LoadTextures | src/components/model/Model.tsx:96-127 | only table keys appear; each key holds the first of its candidates that loads, and is absent when none does |
| ModelLoader.DisplacementPrefersJpg | src/components/model/Model.tsx:87-115 | displacementMap is disp.jpg when it loads, else disp.tiff when that loads, else absent |
| ModelPage.ActiveList | src/pages/ModelPage.tsx:41-42 | the curated catalog exactly for the source "tuke-models" |
| ModelPage.Normalize | src/pages/ModelPage.tsx:40-47 | the displayed list is the selected catalog, and an index at or past its end becomes 0 |
| ModelPage.NormalizeIdempotent | src/pages/ModelPage.tsx:40-47 | running the range effect again changes nothing |
| ModelPage.Tick | src/pages/ModelPage.tsx:96-113 | the interval runs only with more than one model and autoSwitch on; a countdown above 1 drops by 1; otherwise the index advances modulo the length and the countdown resets to 5 |
| ModelPage.SwitchAfterCountdown | src/pages/ModelPage.tsx:96-113 | the index is unchanged for `countdown - 1` seconds, then becomes `(i + 1) mod len` with the countdown back at 5 |
| ModelPage.Vector3Of | src/pages/ModelPage.tsx:117 | `new THREE.Vector3(...xs)` has three components: the first three sent, a missing one 0, extra ones dropped |
| ModelPage.QuaternionOf | src/pages/ModelPage.tsx:121 | `new THREE.Quaternion(...xs)` has four components: the first four sent, a missing x, y or z 0 and a missing w 1 |
| ModelPage.ApplyCamera | src/pages/ModelPage.tsx:115-130 | the camera always ends with a three-component position and a four-component quaternion rebuilt from the payload; zoom only when present |
| ModelPage.MirrorsController | src/pages/ModelPage.tsx:115-128 | a camera published by the controller, with `toArray()`'s three and four components (src/components/control/CameraSync.tsx:9-10), leaves the viewer's camera equal to it |
| ModelPage.Relocate | src/pages/ModelPage.tsx:62-73 | the index moves only to a position whose URL is an uploaded one, otherwise it stays |
| ModelPage.Handle | src/pages/ModelPage.tsx:57-163 | `model_uploaded` turns autoSwitch off and sends exactly `get_files`; `settings_update` takes autoSwitch and txtrFolder as sent; `model_settings_update` adopts the source and keeps an index below the list length, else 0 |
| ModelPage.Step | src/pages/ModelPage.tsx:165-170 | `model_switch` with the new index is emitted exactly on mount or when the index changed |
| ModelPage.StepKeepsInv | src/pages/ModelPage.tsx:40-47 | every input except a `model_settings_update` with a negative index keeps the index a position of the displayed catalog (or 0) and the countdown in [1, 5] |
| ModelPage.NegativeIndexKept | src/pages/ModelPage.tsx:148-157 | a negative `model_settings_update` index is stored as sent, survives the range effect and breaks the invariant |
| ModelPage.Rendered | src/pages/ModelPage.tsx:186-192 | a model is shown only when loaded and the index names an entry |
| ModelPage.LoadedPageShowsModel | src/pages/ModelPage.tsx:186-188 | under the invariant, a loaded page with models always shows the indexed one |
| ModelPage.UploadSelectsItsModel | src/pages/ModelPage.tsx:57-73 | after an upload and the reply, the index is the uploaded URL's position when found, else unchanged |
| ModelPage2.GltfUrls | src/pages/ModelPage2.tsx:54-58 | never longer than the list, and every URL kept is that of a .glb/.gltf entry |
| ModelPage2.GltfUrlsAppend | src/pages/ModelPage2.tsx:54-58 | the filter and map distribute over concatenation, so list order is kept |
| ModelPage2.GltfUrlsMembership | src/pages/ModelPage2.tsx:54-58 | a URL is kept exactly when some .glb/.gltf entry carries it |
| ModelPage2.OnFilesList | src/pages/ModelPage2.tsx:46-68 | a missing or empty list, or one without glTF entries, changes nothing; otherwise the URLs replace the list and loading ends |
| ModelPage2.Rotate | src/pages/ModelPage2.tsx:76-88 | rotation `(i + 1) mod len` happens only with more than one model |
| ModelPage2.SetVector3 | src/pages/ModelPage2.tsx:93 | `position.set(...xs)` takes the first three components sent and drops extra ones; a missing x or y becomes `undefined`, a missing z keeps the previous z |
| ModelPage2.OnCamera | src/pages/ModelPage2.tsx:90-100 | the position always, through `set`; the quaternion only for exactly four components, and otherwise kept |
| ModelPage2.MirrorsController | src/pages/ModelPage2.tsx:90-100 | a camera published by the controller sets every position component and the quaternion |
| ModelPage2.Rendered | src/pages/ModelPage2.tsx:146-147 | the loader is used exactly when loaded with a non-empty list |
| ModelPage2.ShorterListOutrunsIndex | src/pages/ModelPage2.tsx:62-64 | a shorter list arriving after rotation leaves the index past its end |
| ModelPage2.OnFilesListClamped | src/pages/ModelPage2.tsx:62-64 | the same list and loading flag as the original handler; when the list changes the index is kept if still inside it, else reset to 0 |
| ModelPage2.ClampedKeepsInRange | src/pages/ModelPage2.tsx:46-100 | with the clamped handler every input keeps the index in range, so the loader always gets a listed URL |
| Showcase.Pick | src/pages/p3/ModelPage.tsx:78 | `floor(random * n)` is a position in the catalog |
| Showcase.NextDraw | src/pages/p3/ModelPage.tsx:82-85 | the loop's result, when it exits, is a position different from the start |
| Showcase.SingleModelNeverExits | src/pages/p3/ModelPage.tsx:82-85 | with one model no number of draws ends the loop |
| Showcase.NextPick | src/pages/p3/ModelPage.tsx:82-87 | one model is its own next; with two or more the next differs from the start |
| Showcase.NextPickFindsDifferentDraw | src/pages/p3/ModelPage.tsx:82-85 | with two or more models the loop exits once a differing draw comes |
| Showcase.Load | src/pages/p3/ModelPage.tsx:72-92 | a failed fetch (src/utils/api.ts:89-97 resolves to `undefined`) fails the page, and exactly then; otherwise a non-empty catalog gets a start from it; a next model that changes is drawn from the catalog; with a single model the loop never exits and the next model is never set; an empty catalog changes only the list |
| Showcase.LoadCorrected | src/pages/p3/ModelPage.tsx:72-92 | as `Load`, but a single model is also its own next |
| Showcase.LoadsAgreeWhenLoopExits | src/pages/p3/ModelPage.tsx:72-92 | on a catalog other than a single entry, whenever the corrected load finds a next model the as-written load is the same |
| Showcase.Position | src/pages/p3/ModelPage.tsx:100-102 | -1 exactly when there is no next model or no entry carries its URL; otherwise the first entry with that URL |
| Showcase.Rotate | src/pages/p3/ModelPage.tsx:94-110 | no rotation for an empty catalog; otherwise the next model is shown, a catalog entry becomes next and the countdown restarts at 20 |
| Showcase.RotateAdvances | src/pages/p3/ModelPage.tsx:98-104 | the next after entry `i` is entry `(i + 1) mod len` |
| Showcase.RotateUnknownRestarts | src/pages/p3/ModelPage.tsx:100-104 | a next model not in the catalog makes entry 0 the new next |
| Showcase.Countdown | src/pages/p3/ModelPage.tsx:112-118 | a positive countdown drops by 1, 0 resets to 20 |
| Showcase.CountdownPeriod | src/pages/p3/ModelPage.tsx:114 | from `c`, `k ≤ c` seconds give `c - k` and `c + 1` seconds give 20 |
| AdminPage.Render | src/pages/AdminPage.tsx:132-162 | the login form is shown exactly until logged in |
| AdminPage.ChangeModelList | src/pages/AdminPage.tsx:92-102 | "user" and "tuke" pick a catalog, other names keep the list, and the detail view always closes |
| AdminPage.ClickItem | src/pages/AdminPage.tsx:185-191 | the clicked index becomes current; the detail view toggles exactly when it already was |
| AdminPage.Delete | src/pages/AdminPage.tsx:104-113 | `delete_file` {id, folder} exactly when an entry exists at the index |
| AdminPage.Step | src/pages/AdminPage.tsx:27-113 | login success logs in for good; failure sets the error; Login emits `admin_login` with the form; mount emits `get_files` (line 79); falsy `update_index` is ignored; `files_list` sets both lists to the user models |
| AdminPage.CatalogOnlyAfterLogin | src/pages/AdminPage.tsx:27-38 | over any run, the catalog is shown exactly when a `login_success` arrived |
| AdminPage.DoubleClick | src/pages/AdminPage.tsx:185-191 | two clicks on the current item restore the detail view; on another item they toggle it once |
| AdminPage.DeleteNeedsAnEntry | src/pages/AdminPage.tsx:104-106 | nothing is deleted before a list arrives; afterwards the first user model can be |
| HexColor.ReplaceFirst | src/components/model/Light.tsx:104 | a string without the pattern character is returned unchanged |
| HexColor.ReplaceFirstSplits | src/components/model/Light.tsx:104 | in `p + c + q` with no `c` in `p`, only that first `c` is replaced and `q` is kept whole, later occurrences included |
| HexColor.ParseIntHex | src/components/model/Light.tsx:104 | NaN exactly when no hexadecimal digit follows the optional sign and "0x"; without a minus sign the number is never negative |
| HexColor.ParsePrefixed | src/components/model/Light.tsx:104 | "0x" followed by hexadecimal digits parses to the value of all the digits |
| HexColor.ColorRoundTrip | src/components/model/Light.tsx:104 | "#rrggbb" with "#" replaced by "0x" parses base 16 back to the 24-bit colour |
| HexColor.WhiteParses | src/components/model/Light.tsx:104 | the colour string "#ffffff" becomes 16777215 |
| Light.Rendered | src/components/model/Light.tsx:112-127 | the lights read intensity, color and `hemiIntesity` |
| Light.ApplyPresetAsWritten | src/components/model/Light.tsx:27-35 | a known folder sets intensity and colour from the preset and leaves the rendered hemisphere value alone; an unknown folder changes nothing |
| Light.PresetHemiIgnored | src/components/model/Light.tsx:32 | with "evening" the rendered hemisphere intensity stays 1, not 0.2 |
| Light.ApplyPreset | src/components/model/Light.tsx:27-35 | with the key the lights read, a known preset sets all three rendered values and nothing else |
| Light.ApplyPresetIdempotent | src/components/model/Light.tsx:23-35 | applying a preset twice is applying it once |
| Light.OnSettingsUpdate | src/components/model/Light.tsx:101-110 | intensity is taken as sent; a string colour is parsed; a non-string colour leaves the colour as it was |
| Light.SettingsColorRoundTrip | src/components/model/Light.tsx:101-106 | a colour sent as "#rrggbb" reaches the lights as the same number |
| Light.SidebarDefaultsGiveWhite | src/components/model/Light.tsx:101-106 | the sidebar's defaults give white (16777215) at intensity 2 |
| Light.LoadEnvironment | src/components/model/Light.tsx:58-87 | the EXR is tried first, the JPG only after it fails, both under `…/enviroment/{f}/{f}` |
| Light.JpgOnlyAfterExrFails | src/components/model/Light.tsx:66-83 | the JPG becomes the environment only when the EXR failed |

## Left out

- The socket connection, `fetch`, the pre-signed PUT/POST to storage and the relay itself. Replies and their outcomes are inputs.
- Timers and the render loop. `setInterval`, `setTimeout` and `useFrame` become discrete second, interval and frame inputs.
- `Math.random` in the showcase page. It is a parameter: a sequence of draws in [0, 1).
- Rendering, the bounding-box scaling of loaded models, camera placement effects and three.js loader internals. A load succeeds or fails, and the loaded object is tagged with whether it was scaled.
- React hook mechanics. Each effect runs after the state change that changes its dependencies; StrictMode double mounting is not modelled.
- ModelPage.Relocate: searches the list displayed when the reply arrives. The code's once-listener captured the list from mount time, which is empty. The model follows the state passed in, not that stale capture.
- SelectModels.Step: the `update_index` guard reads the current `hasControl`. The code's listener captured the value from mount time.
- Handshake.OnPresignedUrl: all pending `presigned_url` listeners share the one PUT outcome carried by the reply. A thrown `fetch` and a non-OK response are one failure case.
- ModelPage.Handle: `model_settings_update` carries an integer index. Other payload shapes and JavaScript's loose `>=` comparison on them are not modelled.
- ModelPage.StepKeepsInv: does not cover a `model_settings_update` with a negative index. Such an index is stored as sent (src/pages/ModelPage.tsx:153-156), and the range effect at line 43 does not repair it (`ModelPage.NegativeIndexKept`). The controllers only send indices of listed models.
- ModelPage: the camera ref is always set. A `camera_update` before the canvas mounts is not modelled.
- HexColor.ParseIntHex: leading whitespace, which `parseInt` skips, is not modelled. Colours come from a colour picker.
- Light.ApplyPreset: only the four listed preset names are presets. Inherited object properties such as "constructor" are not looked up.
- AdminPage: the `model_uploaded` listener, the `delete_success`/`delete_error` listeners and the highlight are left out. The highlight compares arrays by reference.
- Sidebar: the hidden file input at line 405 is not reachable, and is left out. So are the open and close of the sidebar itself, `onResetCamera` and the child preset selectors.
- Picker actions while a modal is closed are not excluded. The buttons are not shown then.
- Showcase.Load: a reply that parses to a JSON value other than an array is not modelled. A reply is either a list of `{ name, url }` records or a failure.
- Showcase: `preloadModel`, the transitions and the QR code are left out. A loop that never exits is a page that hangs. Draws are finite, so `Load` models that as the loop running out of draws: `setNextModel` never runs and the next model keeps its old value.
- ModelPage2: the `Model` component's camera placement is left out.

## Findings

| source | as written | input that shows it | evidently intended | confidence | as-written member | corrected member |
|---|---|---|---|---|---|---|
| src/components/control/SidebarAndUpload.tsx:410-413 | the picker is rendered without `modelsName`, so `modelsName.includes` (src/components/control/FileUpload.tsx:48) throws for every file that passes the size and type checks, and the Upload button stays disabled | "chair.glb", 1024 bytes | pass the names already in the list, `models.map(m => m.id)` | medium, not executed | Sidebar.RenderedPageNeverUploads | Sidebar.StepCorrected |
| src/pages/p3/ModelPage.tsx:82-85 | with one model every draw picks the start index, so the `do … while` never exits | a catalog of one entry, any draws | a single model is its own next | high, not executed | Showcase.Load | Showcase.LoadCorrected |
| src/components/model/Light.tsx:32 | the preset writes "hemiIntensity" while the light reads "hemiIntesity" (line 126), so the hemisphere intensity never follows the preset | envFolder "evening" | the preset's hemisphere intensity is rendered | high, not executed | Light.PresetHemiIgnored | Light.ApplyPreset |
| src/pages/ModelPage2.tsx:62-64 | a new, shorter list keeps the old index, so `models[currentModelIndex]` is undefined and the loader gets no URL | index 2 of 3 models, then a list with one glTF entry | bring the index back into the new list | medium, not executed | ModelPage2.ShorterListOutrunsIndex | ModelPage2.ClampedKeepsInRange |
