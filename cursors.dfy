/**
 * CursorState (main.cpp:146-221): the Normal/Enlarged state machine that
 * installs a copy of the enlarged cursor and, once the enlargement has
 * lasted long enough, a copy of the original arrow.
 */
module Cursors {
  import opened Wrappers
  import opened Config
  import opened Clock
  import opened Platform

  /** The fields of a CursorState: the two templates, is_enlarged_ and enlarge_start_time_. */
  datatype CursorFields = CursorFields(
    isEnlarged: bool,
    enlargeStartTime: int,
    originalCursor: Cursor,
    largeCursor: Cursor)

  /** A CursorState together with the window station it acts on. */
  datatype Screen = Screen(fields: CursorFields, desk: Desk)

  /** Whether CopyCursor and then SetSystemCursor succeed when a transition tries them. */
  datatype Calls = Calls(copyOk: bool, setOk: bool)

  /** A handle this CursorState may install: allocated, alive, and neither template. */
  predicate IsFreshCopy(s: Screen, c: Cursor)
  {
    0 < c.handle < s.desk.nextHandle
    && c.handle !in s.desk.destroyed
    && c.handle != s.fields.originalCursor.handle
    && c.handle != s.fields.largeCursor.handle
  }

  /**
   * The invariant of a constructed CursorState: the templates are alive and
   * hold the arrow and the doubled arrow; only fresh copies are ever installed;
   * is_enlarged_ holds exactly when the enlarged picture is the one shown,
   * and in Normal the arrow is shown.
   */
  predicate Valid(s: Screen)
  {
    var f := s.fields;
    var d := s.desk;
    f.originalCursor.image == Arrow
    && f.largeCursor.image == Scaled(LargeScale)
    && 0 < f.originalCursor.handle < d.nextHandle
    && 0 < f.largeCursor.handle < d.nextHandle
    && f.originalCursor.handle !in d.destroyed
    && f.largeCursor.handle !in d.destroyed
    && (forall h :: h in d.destroyed ==> h < d.nextHandle)
    && (d.installed.Some? ==> IsFreshCopy(s, d.installed.value))
    && (f.isEnlarged <==> d.installed.Some? && d.installed.value.image == f.largeCursor.image)
    && (!f.isEnlarged ==> ShownImage(s) == f.originalCursor.image)
  }

  /** The picture shown for OCR_NORMAL; the theme's own arrow when nothing is installed. */
  function ShownImage(s: Screen): (image: Image)
  {
    if s.desk.installed.None? then Arrow else s.desk.installed.value.image
  }

  /** Enlarge() at instant now (main.cpp:176-189). */
  function AfterEnlarge(s: Screen, now: int, calls: Calls): (r: Screen)
    // Re-triggering while enlarged changes nothing, and in particular does not restart the timer.
    ensures s.fields.isEnlarged ==> r == s
    // From Normal it ends Enlarged exactly when both the copy and the install succeed ...
    ensures r.fields.isEnlarged <==> s.fields.isEnlarged || (calls.copyOk && calls.setOk)
    // ... and then the timer starts now and a fresh copy of the enlarged template is shown.
    ensures !s.fields.isEnlarged && r.fields.isEnlarged ==>
              r.fields.enlargeStartTime == now
              && r.desk.installed == Some(Cursor(s.desk.nextHandle, s.fields.largeCursor.image))
    // On any failure the fields and the shown cursor are unchanged ...
    ensures !r.fields.isEnlarged ==> r.fields == s.fields && r.desk.installed == s.desk.installed
    // ... and a copy that could not be installed is destroyed.
    ensures !s.fields.isEnlarged && calls.copyOk && !calls.setOk ==>
              r.desk.destroyed == s.desk.destroyed + {s.desk.nextHandle}
    ensures r.fields.originalCursor == s.fields.originalCursor && r.fields.largeCursor == s.fields.largeCursor
    ensures Valid(s) ==> Valid(r)
  {
    if s.fields.isEnlarged then s
    else
      var (copy, d1) := Copy(s.desk, s.fields.largeCursor, calls.copyOk);
      if copy.None? then s.(desk := d1)
      else
        var (done, d2) := Install(d1, copy.value, calls.setOk);
        if done then Screen(s.fields.(isEnlarged := true, enlargeStartTime := now), d2)
        else Screen(s.fields, Destroy(d2, copy.value))
  }

  /** RestoreOriginalCursor() (main.cpp:204-215). */
  function AfterRestoreOriginal(s: Screen, calls: Calls): (r: Screen)
    ensures !s.fields.isEnlarged ==> r == s
    // It leaves Enlarged exactly when both the copy and the install succeed; otherwise the next tick retries.
    ensures r.fields.isEnlarged <==> s.fields.isEnlarged && !(calls.copyOk && calls.setOk)
    ensures s.fields.isEnlarged && !r.fields.isEnlarged ==>
              r.desk.installed == Some(Cursor(s.desk.nextHandle, s.fields.originalCursor.image))
    ensures r.fields.isEnlarged ==> r.desk.installed == s.desk.installed
    ensures s.fields.isEnlarged && calls.copyOk && !calls.setOk ==>
              r.desk.destroyed == s.desk.destroyed + {s.desk.nextHandle}
    ensures r.fields.(isEnlarged := s.fields.isEnlarged) == s.fields
    ensures Valid(s) ==> Valid(r)
  {
    if !s.fields.isEnlarged then s
    else
      var (copy, d1) := Copy(s.desk, s.fields.originalCursor, calls.copyOk);
      if copy.None? then s.(desk := d1)
      else
        var (done, d2) := Install(d1, copy.value, calls.setOk);
        if done then Screen(s.fields.(isEnlarged := false), d2)
        else Screen(s.fields, Destroy(d2, copy.value))
  }

  /** The test of main.cpp:197: more than EnlargeDurationMs whole milliseconds since the enlargement began. */
  function Expired(f: CursorFields, now: int): (expired: bool)
    ensures expired <==> now - f.enlargeStartTime >= (EnlargeDurationMs + 1) * TicksPerMs
  {
    ElapsedExceeds(f.enlargeStartTime, now, EnlargeDurationMs);
    ElapsedMs(f.enlargeStartTime, now) > EnlargeDurationMs
  }

  /** RestoreIfNeeded() at instant now (main.cpp:191-201). */
  function AfterRestoreIfNeeded(s: Screen, now: int, calls: Calls): (r: Screen)
    // Nothing happens in Normal, nor before 1001 full milliseconds of clock ticks have passed.
    ensures !s.fields.isEnlarged ==> r == s
    ensures now - s.fields.enlargeStartTime < (EnlargeDurationMs + 1) * TicksPerMs ==> r == s
    // Once they have, a restore is attempted: it succeeds exactly when both platform calls do.
    ensures r.fields.isEnlarged <==>
              s.fields.isEnlarged
              && !(now - s.fields.enlargeStartTime >= (EnlargeDurationMs + 1) * TicksPerMs
                   && calls.copyOk && calls.setOk)
    ensures s.fields.isEnlarged && !r.fields.isEnlarged ==>
              r.desk.installed == Some(Cursor(s.desk.nextHandle, s.fields.originalCursor.image))
    ensures r.fields.enlargeStartTime == s.fields.enlargeStartTime
    ensures Valid(s) ==> Valid(r)
  {
    if s.fields.isEnlarged && Expired(s.fields, now) then AfterRestoreOriginal(s, calls)
    else s
  }

  /**
   * Enlarging from Normal and restoring after the deadline, with every
   * platform call succeeding, comes back to Normal with the same picture
   * shown and the same templates.
   */
  lemma EnlargeRestoreRoundTrip(s: Screen, t0: int, t1: int)
    requires Valid(s) && !s.fields.isEnlarged
    requires t1 - t0 >= (EnlargeDurationMs + 1) * TicksPerMs
    ensures var r := AfterRestoreIfNeeded(AfterEnlarge(s, t0, Calls(true, true)), t1, Calls(true, true));
            !r.fields.isEnlarged
            && ShownImage(r) == ShownImage(s)
            && r.fields.originalCursor == s.fields.originalCursor
            && r.fields.largeCursor == s.fields.largeCursor
  {
  }

  /**
   * The destructor (main.cpp:162-174): reset the theme's cursors, and only if
   * that succeeds clear is_enlarged_; then destroy both templates.
   */
  function AfterTeardown(s: Screen, resetOk: bool): (r: Screen)
    ensures resetOk ==> !r.fields.isEnlarged && r.desk.installed == None
    ensures !resetOk ==> r.fields == s.fields && r.desk.installed == s.desk.installed
    ensures s.fields.originalCursor.handle in r.desk.destroyed && s.fields.largeCursor.handle in r.desk.destroyed
    ensures r.desk.destroyed == s.desk.destroyed + {s.fields.originalCursor.handle, s.fields.largeCursor.handle}
  {
    var (done, d1) := ResetCursors(s.desk, resetOk);
    var f := if done then s.fields.(isEnlarged := false) else s.fields;
    Screen(f, Destroy(Destroy(d1, s.fields.originalCursor), s.fields.largeCursor))
  }

  /** The two ways the constructor throws (main.cpp:151-153, main.cpp:157-159). */
  datatype StartupError = BackupFailed | ScaleFailed

  class CursorState {
    const originalCursor: Cursor
    const largeCursor: Cursor
    var isEnlarged: bool
    var enlargeStartTime: int

    /** The member initialisers: Normal, with the clock's zero instant as start time (main.cpp:217-220). */
    constructor (original: Cursor, large: Cursor)
      ensures Fields() == CursorFields(false, 0, original, large)
    {
      originalCursor := original;
      largeCursor := large;
      isEnlarged := false;
      enlargeStartTime := 0;
    }

    function Fields(): (f: CursorFields)
      reads this
    {
      CursorFields(isEnlarged, enlargeStartTime, originalCursor, largeCursor)
    }

    function Snapshot(desk: Desktop): (s: Screen)
      reads this, desk
    {
      Screen(Fields(), desk.State())
    }

    method Enlarge(desk: Desktop, now: int, calls: Calls)
      modifies this, desk
      ensures Snapshot(desk) == AfterEnlarge(old(Snapshot(desk)), now, calls)
    {
      if !isEnlarged {
        var copy := desk.CopyCursor(largeCursor, calls.copyOk);
        if copy.Some? {
          var done := desk.SetSystemCursor(copy.value, calls.setOk);
          if done {
            isEnlarged := true;
            enlargeStartTime := now;
          } else {
            desk.DestroyCursor(copy.value);
          }
        }
      }
    }

    method RestoreIfNeeded(desk: Desktop, now: int, calls: Calls)
      modifies this, desk
      ensures Snapshot(desk) == AfterRestoreIfNeeded(old(Snapshot(desk)), now, calls)
    {
      if isEnlarged {
        var elapsed := ElapsedMs(enlargeStartTime, now);
        if elapsed > EnlargeDurationMs {
          RestoreOriginalCursor(desk, calls);
        }
      }
    }

    method RestoreOriginalCursor(desk: Desktop, calls: Calls)
      modifies this, desk
      ensures Snapshot(desk) == AfterRestoreOriginal(old(Snapshot(desk)), calls)
    {
      if isEnlarged {
        var copy := desk.CopyCursor(originalCursor, calls.copyOk);
        if copy.Some? {
          var done := desk.SetSystemCursor(copy.value, calls.setOk);
          if done {
            isEnlarged := false;
          } else {
            desk.DestroyCursor(copy.value);
          }
        }
      }
    }

    /** The destructor's work. */
    method Teardown(desk: Desktop, resetOk: bool)
      modifies this, desk
      ensures Snapshot(desk) == AfterTeardown(old(Snapshot(desk)), resetOk)
    {
      var done := desk.ResetSystemCursors(resetOk);
      if done {
        isEnlarged := false;
      }
      desk.DestroyCursor(originalCursor);
      desk.DestroyCursor(largeCursor);
    }
  }

  /**
   * The constructor (main.cpp:148-160): back up a copy of the system arrow,
   * then scale it by two. Either step may fail, and the constructor throws;
   * when the scaling fails the backup copy is not destroyed.
   */
  method NewCursorState(desk: Desktop, copyOk: bool, scaleOk: bool) returns (r: Result<CursorState, StartupError>)
    modifies desk
    ensures !copyOk ==> r == Failure(BackupFailed) && desk.State() == old(desk.State())
    ensures copyOk && !scaleOk ==> r == Failure(ScaleFailed) && desk.destroyed == old(desk.destroyed)
    ensures copyOk && scaleOk ==> r.Success? && fresh(r.value)
    ensures r.Success? ==> !r.value.isEnlarged && desk.installed == old(desk.installed)
    ensures r.Success? && old(desk.installed).None? && 0 < old(desk.nextHandle)
            && (forall h :: h in old(desk.destroyed) ==> h < old(desk.nextHandle))
            ==> Valid(r.value.Snapshot(desk))
  {
    var original := desk.CopyCursor(SystemArrow, copyOk);
    if original.None? {
      return Failure(BackupFailed);
    }
    var large := desk.ScaleCursor(original, LargeScale, scaleOk);
    if large.None? {
      return Failure(ScaleFailed);
    }
    var cs := new CursorState(original.value, large.value);
    return Success(cs);
  }
}
