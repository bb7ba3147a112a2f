# mywm window-management core in Dafny

mywm is a small tiling Wayland compositor built on wlroots. Its decisions
live in a few callbacks of `mywm.c`:

- `tile` lays the clients out master/stack style on one reference output.
- `focus_client` moves a client to the head of the client list and activates it.
- `surface_handle_map` and `surface_handle_unmap` insert or remove a client and re-tile.
- `new_output` and `output_destroy` maintain the output list. `tile` reads its tail.

The model states each of these as a pure function over immutable values.

- `lists.dfy`, module `Lists`: the intrusive `wl_list` as a sequence of identities.
  `Without` is `wl_list_remove`. Its lemmas state that unlinking is a splice that keeps the others' order.
- `geometry.dfy`, module `Geometry`: the rectangle handed to `set_size` and `set_position`,
  with pixel containment and disjointness.
- `layout.dfy`, module `Layout`: `Tile(W, H, n)` mirrors the loop of `tile`, including the
  `width` variable carried from one iteration to the next. `SlotRect` is a loop-free reference
  definition, and `TileClosedForm` proves the two agree.
  The remaining lemmas state the layout's shape.
- `server.dfy`, module `WindowManager`: the `Server` record.
  It holds the client list, the output list, each output's mode size, each client's last geometry,
  and the set of activated clients. The event handlers are `MapClient`, `UnmapClient`, `Focus`,
  `AddOutput` and `RemoveOutput`. `Replay` delivers a sequence of output events.

Facts about `mywm.c` that shape the model:

- The master takes `width * 0.625`, which is W*5/8 after truncation.
- The reference output is the tail of the output list. Since `new_output` links at the head,
  that is the earliest-added output still present.
- The size used is the raw mode size. The effective resolution that `tile` reads is overwritten
  on the next two lines.
- Unmapping does not focus any other client.
- Focusing never deactivates the previously focused client, so `activated` only grows.
- No key is interpreted by the compositor, and pointer devices get no handling.
- Because `width` carries over between stack iterations, the stack is not a single column. See Findings.

Mode sizes are `nat`. wlroots never reports a negative width or height.
`TileWithinOutput` shows that every coordinate and size `tile` computes lies between 0 and W or H.
So the C `int` arithmetic cannot overflow, and no wrap-around needs modelling.

## Model

| member | source | states |
|---|---|---|
| Layout.MasterWidthFiveEighths | mywm.c:317-319 | `width *= 0.625` truncated to `int` equals the integer W*5/8 for every non-negative W, so the layout needs no floating point |
| Layout.Tile | mywm.c:290-326 | the loop yields exactly one rectangle per client in the list; an empty list yields none, so no client is given geometry |
| Layout.StackLoopClosedForm | mywm.c:307-315 | when `width` enters stack iteration i holding the width of the previous slot, each remaining iteration produces the reference rectangle of its rank |
| Layout.TileClosedForm | mywm.c:299-325 | every rectangle the loop of `tile` produces equals the loop-free reference slot of the same rank |
| Layout.TileSingleClient | mywm.c:303-322 | a lone client is placed at (0,0) with the full mode size W x H |
| Layout.TileMaster | mywm.c:316-322 | with more than one client the first client is at (0,0), W*5/8 wide and H high |
| Layout.TileStackSlot | mywm.c:308-315 | stack slot i has height H/(n-1) and y = (i-1)*(H/(n-1)); its right edge is at W; odd slots are W-W*5/8 wide at x = W*5/8, even slots are W*5/8 wide at x = W-W*5/8 |
| Layout.TileStackContiguous | mywm.c:310-312 | consecutive stack slots touch with no vertical gap; the last one ends at or above H, leaving fewer than n-1 rows uncovered |
| Layout.TileWithinOutput | mywm.c:304-312 | every rectangle has non-negative size and lies inside the W x H output |
| Layout.TileTwoPartition | mywm.c:307-322 | with two clients, the master and the stack client share no pixel, and together cover exactly the W x H output |
| Layout.TileThreeClientsExample | mywm.c:307-325 | on a 1920x1080 output three clients get (0,0,1200,1080), (1200,0,720,540) and (720,540,1200,540) |
| Layout.TileThirdOverlapsMaster | mywm.c:309-311 | with three or more clients, slot 2 and the master share a pixel whenever W*5/8 exceeds half of W and H >= n-1 |
| Layout.TileIntendedAgrees | mywm.c:309-311 | the corrected layout keeps the master and every odd stack slot of the as-written one |
| Layout.TileIntendedWithin | mywm.c:309-311 | in the corrected layout every rectangle lies inside the output |
| Layout.TileIntendedDisjoint | mywm.c:309-311 | in the corrected layout no two clients share a pixel |
| WindowManager.Init | mywm.c:451-459 | the server starts valid, with empty client and output lists |
| WindowManager.Retile | mywm.c:290-326 | `tile` changes only client geometry: both lists, the output modes and the activations are unchanged |
| WindowManager.RetilePlaces | mywm.c:299-325 | after `tile` the i-th listed client holds rectangle i of the layout for the tail output's mode; unlisted clients keep their old geometry |
| WindowManager.RetileIdempotent | mywm.c:290-326 | tiling twice without an intervening change gives the same state as tiling once |
| WindowManager.FocusMovesToHead | mywm.c:335-339 | focusing puts the client at the head and keeps the relative order of the others; geometry and outputs are unchanged; exactly that client is added to the activated set |
| WindowManager.FocusHeadKeepsOrder | mywm.c:336-337 | focusing the client already at the head leaves the list unchanged |
| WindowManager.MapClientSpec | mywm.c:351-363 | mapping puts the client at the head with the old order behind it; it gets the master rectangle and old client i gets stack slot i+1; unlisted clients keep their geometry; only the new client is newly activated; outputs are unchanged |
| WindowManager.MapClientIsMaster | mywm.c:358-362 | the mapped client is at the head and holds the full output when alone, else (0,0,W*5/8,H) |
| WindowManager.UnmapClientSpec | mywm.c:365-375 | unmapping removes exactly that client and keeps the others' order; the rest are re-tiled by their new rank; every unlisted client, the unmapped one included, keeps its last geometry; activations, outputs and modes are unchanged |
| WindowManager.AddOutputSpec | mywm.c:135-179 | a new output is linked at the head; it becomes the reference output only when it is the sole output; only the new output's mode is added, every other mode is unchanged; clients, geometry and activations are unchanged |
| WindowManager.RemoveOutputSpec | mywm.c:122-133 | destroying an output unlinks only that output and keeps the others' order; only its mode is dropped, the surviving outputs keep theirs; clients, geometry and activations are untouched |
| WindowManager.RemoveOutputReference | mywm.c:122-133 | the reference output changes only if it is the one destroyed, and then the next-oldest output takes over |
| WindowManager.ReplayOutputs | mywm.c:130-173 | after any admissible sequence of output events, the output list holds the surviving outputs, newest first |
| WindowManager.ReferenceIsEarliest | mywm.c:299 | starting with no outputs, the output `tile` lays out on is the earliest-added output not yet destroyed |

## Left out

- wlroots plumbing is left out: backend, renderer, allocator, scene creation and commit,
  frame-done, and output state requests (`output_frame`, `output_request_state`, mywm.c:82-120).
  These are foreign calls with no decision in them. `set_size` and `set_position` appear only
  as the rectangle a client is given. A backend request committed by `output_request_state` can
  change `wlr_output->width` and `->height`, which `tile` reads; the model keeps each output's
  mode at the size given when it was added.
- Mode selection in `new_output` is left out. The committed mode size is a parameter (`Mode`) of
  the output event, because the preferred mode comes from the backend.
- Keyboard handling is left out: `input_new_keyboard`, `keyboard_handle_key`,
  `keyboard_handle_modifiers`, `keyboard_destroy` and `new_input` (mywm.c:181-288).
  Every key is forwarded to the seat unconditionally, and there is no keybinding table to model.
  The keymap, repeat settings and seat capabilities are runtime configuration.
- `input_new_pointer` is empty (mywm.c:260-262). So there is no pointer hit-testing and no click-to-focus.
- The side effects of `focus_client` on the seat and the scene are left out: keyboard enter
  (mywm.c:341-348) and `wlr_scene_node_raise_to_top` (mywm.c:335). Only the list reorder and
  the activated flag are modelled.
- `new_xdg_surface` and `surface_destroy` (mywm.c:377-413) are left out. They allocate and free
  the client record and wire its listeners. Clients are plain identities here, so a destroyed
  client's last geometry stays in `geometry`.
- Listener link management and `free` are left out, including `keyboard_destroy`'s container
  computed from the wrong member. These are pointer-level C details with no counterpart in values.
- `main` is left out: option parsing, display and backend setup, and launching the startup command.
- WindowManager.MapClient and WindowManager.UnmapClient require a registered output.
  With an empty output list, `tile` reads the list sentinel as an output, which is undefined
  behaviour rather than a case the code handles.
- WindowManager.MapClient requires the client not to be listed, WindowManager.UnmapClient and
  WindowManager.Focus require it to be listed, and WindowManager.RemoveOutput requires the output
  to be listed. The C code links and unlinks without checking.
- Layout.MasterWidth is defined for any `int`, but the layout only uses it on non-negative mode widths.

## Findings

| source | as written | input that shows it | evidently intended | confidence | as-written member | corrected member |
|---|---|---|---|---|---|---|
| mywm.c:309-311 | `width = effective_width - width` reuses the previous slot's width. So every even stack slot is W*5/8 wide at x = W-W*5/8, reaching back over the master | W=1920, H=1080, three clients: slot 2 is (720,540,1200,540) and overlaps the master (0,0,1200,1080) on x in [720,1200) | every stack slot is W-W*5/8 wide at x = W*5/8, a single column right of the master, with no two clients overlapping | high; not executed | Layout.TileThirdOverlapsMaster | Layout.TileIntendedDisjoint |

The corrected layout is `Layout.TileIntended`. The event handlers in `WindowManager` keep the
as-written `Layout.Tile`, because they describe what the compositor does to its clients.
