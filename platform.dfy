/**
 * The Win32 cursor calls the core makes: CopyCursor, SetSystemCursor,
 * DestroyCursor, SystemParametersInfo(SPI_SETCURSORS) and the startup call to
 * CursorUtils::ScaleCursor. The window station is modelled by the cursor
 * installed for OCR_NORMAL, a supply of fresh handles, and the handles that
 * have been destroyed. Whether each call succeeds is an argument.
 */
module Platform {
  import opened Wrappers

  /** What a cursor resource shows: the standard arrow, or the arrow scaled by a factor. */
  datatype Image = Arrow | Scaled(factor: real)

  /** An HCURSOR: the number that identifies the resource, and its picture. */
  datatype Cursor = Cursor(handle: nat, image: Image)

  /** The shared arrow that LoadCursor(nullptr, IDC_ARROW) returns; handle 0 is never handed out by a copy. */
  const SystemArrow: Cursor := Cursor(0, Arrow)

  /**
   * The window station as far as cursors go. installed is the cursor last
   * installed for OCR_NORMAL, or None while the theme's own arrow is shown.
   */
  datatype Desk = Desk(installed: Option<Cursor>, nextHandle: nat, destroyed: set<nat>)

  /** Before the program touches anything: the theme's arrow is shown and handle 0 is the only one in use. */
  const InitialDesk: Desk := Desk(None, 1, {})

  /** CopyCursor(src): a new resource with the same picture under a fresh handle, or null. */
  function Copy(d: Desk, src: Cursor, ok: bool): (r: (Option<Cursor>, Desk))
  {
    if ok then (Some(Cursor(d.nextHandle, src.image)), d.(nextHandle := d.nextHandle + 1))
    else (None, d)
  }

  /** SetSystemCursor(c, OCR_NORMAL): on success the platform shows c and owns it from then on. */
  function Install(d: Desk, c: Cursor, ok: bool): (r: (bool, Desk))
  {
    if ok then (true, d.(installed := Some(c))) else (false, d)
  }

  /** DestroyCursor(c). */
  function Destroy(d: Desk, c: Cursor): (r: Desk)
  {
    d.(destroyed := d.destroyed + {c.handle})
  }

  /** SystemParametersInfo(SPI_SETCURSORS, ...): reload the theme's cursors, dropping what was installed. */
  function ResetCursors(d: Desk, ok: bool): (r: (bool, Desk))
  {
    if ok then (true, d.(installed := None)) else (false, d)
  }

  /**
   * CursorUtils::ScaleCursor(src, factor) (main.cpp:26-134) at its interface:
   * null for a null source or a factor that is not positive (main.cpp:27-29);
   * otherwise a fresh cursor with the scaled picture, or null when any of
   * the GDI steps fails (ok = false).
   */
  function Scale(d: Desk, src: Option<Cursor>, factor: real, ok: bool): (r: (Option<Cursor>, Desk))
  {
    if src.None? || factor <= 0.0 || !ok then (None, d)
    else (Some(Cursor(d.nextHandle, Scaled(factor))), d.(nextHandle := d.nextHandle + 1))
  }

  /** The platform side of the cursor calls, updated in place by each call. */
  class Desktop {
    var installed: Option<Cursor>
    var nextHandle: nat
    var destroyed: set<nat>

    constructor ()
      ensures State() == InitialDesk
    {
      installed := None;
      nextHandle := 1;
      destroyed := {};
    }

    function State(): (d: Desk)
      reads this
    {
      Desk(installed, nextHandle, destroyed)
    }

    method CopyCursor(src: Cursor, ok: bool) returns (copy: Option<Cursor>)
      modifies this
      ensures (copy, State()) == Copy(old(State()), src, ok)
    {
      if ok {
        copy := Some(Cursor(nextHandle, src.image));
        nextHandle := nextHandle + 1;
      } else {
        copy := None;
      }
    }

    method SetSystemCursor(c: Cursor, ok: bool) returns (done: bool)
      modifies this
      ensures (done, State()) == Install(old(State()), c, ok)
    {
      if ok {
        installed := Some(c);
      }
      done := ok;
    }

    method DestroyCursor(c: Cursor)
      modifies this
      ensures State() == Destroy(old(State()), c)
    {
      destroyed := destroyed + {c.handle};
    }

    method ResetSystemCursors(ok: bool) returns (done: bool)
      modifies this
      ensures (done, State()) == ResetCursors(old(State()), ok)
    {
      if ok {
        installed := None;
      }
      done := ok;
    }

    method ScaleCursor(src: Option<Cursor>, factor: real, ok: bool) returns (scaled: Option<Cursor>)
      modifies this
      ensures (scaled, State()) == Scale(old(State()), src, factor, ok)
    {
      if src.None? || factor <= 0.0 || !ok {
        return None;
      }
      scaled := Some(Cursor(nextHandle, Scaled(factor)));
      nextHandle := nextHandle + 1;
    }
  }
}
