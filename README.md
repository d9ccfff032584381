# ShakeToFindCursor: the shake detector and the cursor state machine

ShakeToFindCursor is a Windows utility. When the user moves the mouse fast, it
swaps the system arrow for a copy scaled by two. About a second later it puts
the normal arrow back. This project models the decision-making core of
`main.cpp` in Dafny and proves properties of it:

- **`MouseMoveDetector`** (module `Detector`) keeps the previous pointer
  position and the instant it was taken. For each new position it measures the
  elapsed whole milliseconds. If that is positive, it records the new position
  and instant, and it answers whether the speed was over 3000 pixels per
  second.
- **`CursorState`** (module `Cursors`) is the Normal/Enlarged machine. In
  Normal, `Enlarge` installs a fresh copy of the enlarged template and starts
  the timer. `RestoreIfNeeded` installs a fresh copy of the original arrow once
  more than 1000 whole milliseconds have passed. The destructor resets the
  theme's cursors.
- **`ShakeToFindCursor`** (module `App`) is the glue. Hook samples go to the
  detector, and then to `Enlarge`. Ticks of timer 1 go to `RestoreIfNeeded`.

How the platform is modelled:

- **Win32 cursor calls.** `CopyCursor`, `SetSystemCursor`, `DestroyCursor`,
  `SystemParametersInfo(SPI_SETCURSORS)` and the interface of
  `CursorUtils::ScaleCursor` are the methods of the `Platform.Desktop` class.
  Its state is the cursor installed for `OCR_NORMAL`, a supply of fresh handle
  numbers, and the set of destroyed handles. Whether each call succeeds is a
  boolean argument.
- **The clock.** `high_resolution_clock` is replaced by integer instants passed
  in by the caller. An instant is a count of nanosecond ticks, the clock's
  period with MSVC. `Clock.ElapsedMs` is `duration_cast<milliseconds>`, which
  truncates toward zero. So a sample less than one millisecond after the last
  one is ignored and does not move the recorded instant.
- **The speed test.** `sqrt(dx*dx + dy*dy) / dt * 1000 > 3000` is modelled as
  the exact integer test `dx*dx + dy*dy > 9*dt*dt`. A lemma ties it to the
  squared form of the source's formula.

Each class method is proved against a function on values (`AfterSample`,
`AfterEnlarge`, `AfterRestoreOriginal`, `AfterRestoreIfNeeded`, `AfterTeardown`,
`AfterMouseMove`,
`AfterTimer`): the new state equals the function applied to the old state.
Those functions carry the properties the source promises. `App.Run` feeds
these functions a sequence of events. Properties of whole runs are proved by
induction over that sequence.

Three facts about `main.cpp` shape the model:

- **The detector.** It compares each sample only with the previous one. There
  is no history of earlier samples.
- **Which cursors are swapped.** Only `OCR_NORMAL` is swapped.
- **Teardown.** The destructor calls `SystemParametersInfo`. It clears
  `is_enlarged_` only when that call succeeds (`Cursors.AfterTeardown`).

## Model

| member | source | states |
|---|---|---|
| `Clock.ElapsedMs` | main.cpp:233-234 | the elapsed whole milliseconds are the tick difference truncated toward zero: `ms*T <= d < (ms+1)*T` going forward, and the mirror image going backward |
| `Clock.ElapsedExceeds` | main.cpp:194-197 | more than k whole milliseconds have elapsed exactly when at least (k+1) milliseconds' worth of ticks separate the instants |
| `Detector.SquaredDistance` | main.cpp:237-239 | the squared distance is never negative, and is zero exactly for a zero displacement |
| `Detector.SquaredSpeedScaling` | main.cpp:240-245 | for a positive squared time t2, the squared speed d2 / t2 scaled to seconds exceeds the squared threshold 3000² exactly when d2 > 9*t2 |
| `Detector.IsFast` | main.cpp:239-245 | the integer test `d2 > 9*dt*dt` holds exactly when the source's speed, squared, exceeds the square of kSpeedThreshold = 3000 px/s; a zero displacement is never fast |
| `Detector.AfterSample` | main.cpp:231-248 | under one full millisecond (or backwards): answers false, state unchanged; otherwise always records the position and instant; the answer is true iff elapsed ms > 0 and the speed test passes; a zero displacement never triggers; the recorded instant never decreases |
| `Detector.MouseMoveDetector.constructor` | main.cpp:226-229 | the detector starts from the given pointer position and instant |
| `Detector.MouseMoveDetector.ShouldEnlargeCursor` | main.cpp:231-248 | the answer and the new last_pos_/last_time_ are those of `AfterSample` on the old fields |
| `Platform.Desktop.CopyCursor` | main.cpp:179 | on success returns a cursor with the source's picture under a fresh handle; on failure returns null and changes nothing |
| `Platform.Desktop.SetSystemCursor` | main.cpp:181 | on success the given cursor is the one shown; on failure nothing changes |
| `Platform.Desktop.DestroyCursor` | main.cpp:185 | the handle is added to the destroyed handles; nothing else changes |
| `Platform.Desktop.ResetSystemCursors` | main.cpp:165 | on success the theme's own arrow is shown again; on failure nothing changes |
| `Platform.Desktop.ScaleCursor` | main.cpp:26-29 | null for a null source or a factor <= 0 or a failed GDI step; otherwise a fresh cursor holding the scaled picture |
| `Cursors.AfterEnlarge` | main.cpp:176-189 | while Enlarged it changes nothing (the timer is not restarted); from Normal it ends Enlarged iff both the copy and the install succeed, with start time = now and a fresh copy of the large template shown; on failure the fields and shown cursor are unchanged and an uninstalled copy is destroyed; it preserves `Valid` |
| `Cursors.AfterRestoreOriginal` | main.cpp:204-215 | no-op in Normal; leaves Enlarged iff both the copy and the install succeed, showing a fresh copy of the original arrow; on failure it stays Enlarged with the shown cursor unchanged and the failed copy destroyed; it preserves `Valid` |
| `Cursors.Expired` | main.cpp:194-197 | more than kEnlargeDurationMs whole milliseconds have elapsed exactly when at least 1001 milliseconds' worth of ticks separate the start and now |
| `Cursors.AfterRestoreIfNeeded` | main.cpp:191-201 | no-op in Normal and before 1001 full milliseconds of ticks since the start; after that it leaves Enlarged exactly when both platform calls succeed, showing a fresh arrow copy; the start time is kept; it preserves `Valid` |
| `Cursors.EnlargeRestoreRoundTrip` | main.cpp:176-215 | from a valid Normal state, a successful Enlarge followed by a successful restore after the deadline is back in Normal, showing the same picture as before, with the same templates |
| `Cursors.AfterTeardown` | main.cpp:162-174 | when the theme reset succeeds the flag is cleared and the theme's arrow is shown; when it fails the flag and the shown cursor stay; both templates are destroyed |
| `Cursors.CursorState.constructor` | main.cpp:217-220 | a new state is Normal with the zero instant as start time and the given templates |
| `Cursors.CursorState.Enlarge` | main.cpp:176-189 | the new fields and window station are those of `AfterEnlarge` on the old ones |
| `Cursors.CursorState.RestoreIfNeeded` | main.cpp:191-201 | the new fields and window station are those of `AfterRestoreIfNeeded` on the old ones |
| `Cursors.CursorState.RestoreOriginalCursor` | main.cpp:204-215 | the new fields and window station are those of `AfterRestoreOriginal` on the old ones |
| `Cursors.CursorState.Teardown` | main.cpp:162-174 | the new fields and window station are those of `AfterTeardown` on the old ones |
| `Cursors.NewCursorState` | main.cpp:148-160 | fails with BackupFailed when the copy of the arrow fails; fails with ScaleFailed when scaling fails, without destroying the backup copy; otherwise returns a new Normal state satisfying `Valid` when nothing was installed yet |
| `App.AfterMouseMove` | main.cpp:357-361 | the sample always reaches the detector; Enlarge runs exactly when the detector answers true; a move never ends or re-arms an enlargement; a move that enlarges was fast and starts the timer at its instant; it preserves `Valid` |
| `App.AfterTimer` | main.cpp:381-385 | a tick with another id changes nothing; a tick never touches the detector and never enlarges; a kTimerId tick does exactly `RestoreIfNeeded`; it preserves `Valid` |
| `App.Step` | main.cpp:357-385 | a tick never touches the detector and never enlarges; a mouse move never ends or re-arms an enlargement; the detector's instant never decreases; each event preserves `Valid` |
| `App.RunPreservesValid` | main.cpp:176-215 | over any sequence of samples and ticks, only fresh copies are ever shown, templates stay alive, Enlarged holds exactly when the large picture is shown, and Normal shows the arrow |
| `App.EnlargedUntilDeadline` | main.cpp:176-201 | once Enlarged, any sequence of samples and of ticks before the deadline leaves the phase, the start time and the shown cursor unchanged |
| `App.TicksNeverEnlarge` | main.cpp:381-385 | in Normal, timer ticks alone change nothing at all |
| `App.SamplerTimeNeverDecreases` | main.cpp:236-247 | whatever order the clock readings arrive in, the detector's recorded instant never moves backwards over a run |
| `App.RestoredAtDeadline` | main.cpp:191-215 | in Enlarged, a kTimerId tick at or after the deadline whose calls succeed shows a fresh copy of the original arrow and returns to Normal |
| `App.ShakeToFindCursor.constructor` | main.cpp:403-406 | the controller holds the given CursorState and detector |
| `App.ShakeToFindCursor.ProcessMouseMove` | main.cpp:357-361 | the new detector fields, cursor fields and window station are those of `AfterMouseMove` |
| `App.ShakeToFindCursor.OnTimer` | main.cpp:381-385 | the new cursor fields and window station are those of `AfterTimer` |

## Left out

- `CursorUtils::ScaleCursor`'s image processing (main.cpp:30-134): GDI bitmaps, device contexts and floating-point size and hotspot scaling. Only its interface and its null-return guard are modelled, with one flag standing for all its GDI steps.
- `GetSystemArrowCursor` and `IsRunAsAdmin`: thin Win32 wrappers outside the core.
- `Initialize`, `Run`, `Stop`, `ConsoleCtrlHandler`, the hook and window registration, and the `ShakeToFindCursor` destructor: message loop and registration plumbing. The `running_` flag is written from the console-control handler, which is a concurrency concern.
- `MouseProc`'s filter (`nCode == HC_ACTION && wParam == WM_MOUSEMOVE`) and the `WM_DESTROY` branch: hook and window plumbing around the glue.
- The `instance` null check in `WindowProc`: the instance pointer is stored before the timer is created, so a `WM_TIMER` always finds it.
- The singleton `GetInstance`, the `std::cout`/`std::cerr` logging and `main`'s exit codes.
- `high_resolution_clock`: instants are arguments, and each clock reading of the source is its own argument (`sampledAt`, `enlargeAt`, `at`).
- `Detector.IsFast`: the source's `double` arithmetic and `sqrt` are replaced by the exact integer test, so rounding right at the threshold is not modelled.
- `Detector.AfterSample`: coordinates are unbounded integers; 32-bit `LONG` overflow in `current_pos.x - last_pos_.x` is not modelled, since screen coordinates are far from that range.
- `DestroyCursor` and `SystemParametersInfo` are modelled only by their effect on handles and on the shown cursor.
- `kCheckIntervalMs` is unused in the source. `kTimerInterval` only schedules ticks, which here arrive as events.
