/** The drag-to-resize controller for the chat page's bottom area: the
    height clamp, the stored-height fallback, the drag state machine driven
    by mouse events, the throttled save, the per-frame flush, the debounced
    re-apply after DOM changes and the bounded start-up retries. Time is an
    integer clock in milliseconds; the DOM is reduced to whether the resize
    target exists and what its computed height reads. */
module Resizer {
  import opened Wrappers
  import opened Decimal

  const DEFAULT_PX: int := 420
  const MIN_PX: int := 120
  const MAX_VH: int := 80
  const SAVE_INTERVAL_MS: int := 150
  const DEBOUNCE_MS: int := 120
  const MAX_TRIES: nat := 20
  const RETRY_MS: int := 150

  /** `Math.round(innerHeight * (MAX_VH / 100))`: the integer nearest to
      80% of the viewport height, halves rounded up. */
  function ViewportCap(innerHeight: nat): (cap: int)
    ensures -50 < 100 * cap - MAX_VH * innerHeight <= 50
  {
    (2 * MAX_VH * innerHeight + 100) / 200
  }

  function Max(a: int, b: int): int { if a >= b then a else b }
  function Min(a: int, b: int): int { if a <= b then a else b }

  /** `clamp`: never below MIN_PX, never above the cap unless the cap is
      itself below MIN_PX, and the identity in between. */
  function Clamp(px: int, cap: int): (r: int)
    ensures r >= MIN_PX
    ensures r <= Max(MIN_PX, cap)
    ensures MIN_PX <= px <= cap ==> r == px
    ensures px <= MIN_PX ==> r == MIN_PX
    ensures MIN_PX <= cap <= px ==> r == cap
  {
    Max(MIN_PX, Min(cap, px))
  }

  /** `clamp` is monotone. */
  lemma ClampMonotone(a: int, b: int, cap: int)
    requires a <= b
    ensures Clamp(a, cap) <= Clamp(b, cap)
  {
  }

  /** The height a drag asks for: dragging up (a smaller `clientY`) makes
      it larger. */
  function DragHeight(startH: int, startY: int, clientY: int, cap: int): int {
    Clamp(startH + (startY - clientY), cap)
  }

  /** Moving the pointer further up never lowers the requested height. */
  lemma MoveUpNeverShrinks(startH: int, startY: int, higher: int, lower: int, cap: int)
    requires higher <= lower
    ensures DragHeight(startH, startY, higher, cap) >= DragHeight(startH, startY, lower, cap)
  {
    ClampMonotone(startH + (startY - lower), startH + (startY - higher), cap);
  }

  /** The text the store holds after `setStored(STORE_KEY, h)`: `String(h)`,
      or `NaN` when the measured height did not parse. */
  function StoredText(h: Option<int>): string {
    match h
    case Some(n) => IntToString(n)
    case None => "NaN"
  }

  /** `parseInt(getStored(STORE_KEY, DEFAULT_PX), 10)` with the
      `Number.isFinite` fallback. `None` is an empty store. */
  function SavedHeight(stored: Option<string>): int {
    match stored
    case None => DEFAULT_PX
    case Some(text) => ParseInt(text).GetOr(DEFAULT_PX)
  }

  /** A stored height reads back as itself, so a reload restores it. */
  lemma SavedHeightRestores(n: int)
    ensures SavedHeight(Some(StoredText(Some(n)))) == n
  {
    ParseIntOfString(n, "");
    assert IntToString(n) + "" == IntToString(n);
  }

  /** An empty store, a stored `NaN` and any stored text without digits
      give DEFAULT_PX. */
  lemma SavedHeightFallback(text: string)
    requires forall i :: 0 <= i < |text| ==> !IsDigit(text[i])
    ensures SavedHeight(None) == DEFAULT_PX
    ensures SavedHeight(Some(StoredText(None))) == DEFAULT_PX
    ensures SavedHeight(Some(text)) == DEFAULT_PX
  {
    ParseIntNaN(text);
    ParseIntNaN("NaN");
  }

  /** `parseInt(text, 10) || fallback`: NaN and 0 fall back. */
  function MeasuredOr(text: string, fallback: int): int {
    match ParseInt(text)
    case Some(h) => if h == 0 then fallback else h
    case None => fallback
  }

  /** What `pickResizeTarget()` finds, and the `height` its computed style
      reports (meaningful only when present). */
  datatype Target = Target(present: bool, computedHeight: string)

  /** The computed height of an element whose height is `px` pixels. */
  function PxText(px: int): string {
    IntToString(px) + "px"
  }

  /** The script's state for one attached grip: the global `isDragging`,
      the persisted value, the height last applied to the target, and the
      drag closure's `initial`, `startY`, `startH`, `pending`, `raf` and
      `lastSave`; `debounceDue` is when the observer's pending timeout
      fires. */
  class Resizer {
    var isDragging: bool
    var stored: Option<string>
    var applied: Option<int>
    var initial: int
    var startY: int
    var startH: int
    var pending: Option<int>
    var raf: int
    var lastSave: int
    var debounceDue: Option<int>

    /** A frame is scheduled exactly while a height is pending, and a
        pending height is clamped. */
    ghost predicate Valid()
      reads this
    {
      && (pending.Some? <==> raf != 0)
      && (pending.Some? ==> pending.value >= MIN_PX)
    }

    /** The first successful `attachGripOnce`: reads the store and applies
        the saved height (unclamped, as the source does). */
    constructor (stored: Option<string>, targetPresent: bool)
      ensures Valid()
      ensures this.stored == stored && initial == SavedHeight(stored)
      ensures applied == if targetPresent then Some(initial) else None
      ensures !isDragging && startY == 0 && startH == initial
      ensures pending == None && raf == 0 && lastSave == 0 && debounceDue == None
    {
      this.stored := stored;
      var saved := SavedHeight(stored);
      initial := saved;
      applied := if targetPresent then Some(saved) else None;
      isDragging := false;
      startY, startH, raf, pending, lastSave := 0, saved, 0, None, 0;
      debounceDue := None;
    }

    /** `applyHeight`: writes the height when the target exists. */
    method ApplyHeight(px: int, targetPresent: bool) returns (ok: bool)
      modifies this`applied
      ensures ok == targetPresent
      ensures applied == if targetPresent then Some(px) else old(applied)
    {
      if !targetPresent {
        return false;
      }
      applied := Some(px);
      return true;
    }

    /** `saveThrottled`: stores `px` and moves `lastSave` to `now` only when
        more than 150 ms have passed since the last save. */
    method SaveThrottled(px: int, now: int)
      modifies this`stored, this`lastSave
      ensures now - old(lastSave) > SAVE_INTERVAL_MS ==> stored == Some(IntToString(px)) && lastSave == now
      ensures now - old(lastSave) <= SAVE_INTERVAL_MS ==> stored == old(stored) && lastSave == old(lastSave)
    {
      if now - lastSave > SAVE_INTERVAL_MS {
        stored := Some(IntToString(px));
        lastSave := now;
      }
    }

    /** `flush`, the animation-frame callback: nothing when no height is
        pending; otherwise applies it and clears `pending` and `raf`. */
    method Flush(targetPresent: bool)
      requires Valid()
      modifies this`applied, this`pending, this`raf
      ensures Valid()
      ensures old(pending).None? ==> applied == old(applied) && pending == None && raf == old(raf) == 0
      ensures old(pending).Some? ==>
        && applied == (if targetPresent then old(pending) else old(applied))
        && pending == None && raf == 0
    {
      if pending.None? {
        return;
      }
      var _ := ApplyHeight(pending.value, targetPresent);
      pending := None;
      raf := 0;
    }

    /** `onDown`: without a target nothing happens; otherwise the drag
        starts from the pointer's `clientY` and the measured height (or
        `initial` when that reads as NaN or 0). */
    method OnDown(target: Target, clientY: int)
      requires Valid()
      modifies this`isDragging, this`startY, this`startH
      ensures Valid()
      ensures !target.present ==> isDragging == old(isDragging) && startY == old(startY) && startH == old(startH)
      ensures target.present ==>
        isDragging && startY == clientY && startH == MeasuredOr(target.computedHeight, initial)
    {
      if !target.present {
        return;
      }
      isDragging := true;
      startY := clientY;
      startH := MeasuredOr(target.computedHeight, initial);
    }

    /** `onMove`: nothing unless dragging; otherwise the clamped height
        becomes pending, is saved if the throttle allows, and a frame is
        scheduled unless one already is. `frame` is the handle
        `requestAnimationFrame` returns, never 0. */
    method OnMove(clientY: int, innerHeight: nat, now: int, frame: int)
      requires Valid()
      requires frame != 0
      modifies this`pending, this`raf, this`stored, this`lastSave
      ensures Valid()
      ensures !old(isDragging) ==>
        pending == old(pending) && raf == old(raf) && stored == old(stored) && lastSave == old(lastSave)
      ensures old(isDragging) ==>
        var next := DragHeight(startH, startY, clientY, ViewportCap(innerHeight));
        && pending == Some(next)
        && raf == (if old(raf) == 0 then frame else old(raf))
        && (now - old(lastSave) > SAVE_INTERVAL_MS ==> stored == Some(IntToString(next)) && lastSave == now)
        && (now - old(lastSave) <= SAVE_INTERVAL_MS ==> stored == old(stored) && lastSave == old(lastSave))
    {
      if !isDragging {
        return;
      }
      var dy := startY - clientY;
      var next := Clamp(startH + dy, ViewportCap(innerHeight));
      pending := Some(next);
      SaveThrottled(next, now);
      if raf == 0 {
        raf := frame;
      }
    }

    /** `onUp`: nothing unless dragging; otherwise the drag ends, a
        scheduled frame is cancelled and flushed at once, and the target's
        measured height (or `initial` without a target) is stored. */
    method OnUp(target: Target)
      requires Valid()
      modifies this`isDragging, this`applied, this`pending, this`raf, this`stored
      ensures Valid()
      ensures !old(isDragging) ==>
        && isDragging == old(isDragging) && applied == old(applied)
        && pending == old(pending) && raf == old(raf) && stored == old(stored)
      ensures old(isDragging) ==>
        && !isDragging && pending == None && raf == 0
        && applied == (if old(raf) != 0 && target.present then old(pending) else old(applied))
        && stored == Some(StoredText(if target.present then ParseInt(target.computedHeight) else Some(initial)))
    {
      if !isDragging {
        return;
      }
      isDragging := false;
      if raf != 0 {
        Flush(target.present);
      }
      var h := if target.present then ParseInt(target.computedHeight) else Some(initial);
      stored := Some(StoredText(h));
    }

    /** `onDbl`: the drag flag drops and DEFAULT_PX is applied and stored. */
    method OnDbl(targetPresent: bool)
      requires Valid()
      modifies this`isDragging, this`applied, this`stored
      ensures Valid()
      ensures !isDragging
      ensures applied == if targetPresent then Some(DEFAULT_PX) else old(applied)
      ensures stored == Some(IntToString(DEFAULT_PX)) && SavedHeight(stored) == DEFAULT_PX
    {
      isDragging := false;
      var _ := ApplyHeight(DEFAULT_PX, targetPresent);
      stored := Some(IntToString(DEFAULT_PX));
      SavedHeightRestores(DEFAULT_PX);
    }

    /** The mutation observer's callback: ignored while dragging; otherwise
        the pending timeout is replaced by one due 120 ms from now. */
    method OnMutation(now: int)
      modifies this`debounceDue
      ensures old(isDragging) ==> debounceDue == old(debounceDue)
      ensures !old(isDragging) ==> debounceDue == Some(now + DEBOUNCE_MS)
    {
      if isDragging {
        return;
      }
      debounceDue := Some(now + DEBOUNCE_MS);
    }

    /** The clock reaches `now`: a due debounce timeout runs, re-attaching
        (`attached` is what `attachGripOnce` returns) and applying the saved
        height. As in the source, the timeout itself does not look at
        `isDragging`. */
    method DebounceTick(now: int, attached: bool, targetPresent: bool)
      modifies this`debounceDue, this`applied
      ensures var fires := old(debounceDue).Some? && now >= old(debounceDue).value;
        && (!fires ==> debounceDue == old(debounceDue) && applied == old(applied))
        && (fires ==> debounceDue == None
                      && applied == (if attached && targetPresent then Some(SavedHeight(stored)) else old(applied)))
    {
      if debounceDue.None? || now < debounceDue.value {
        return;
      }
      debounceDue := None;
      var saved := SavedHeight(stored);
      if attached {
        var _ := ApplyHeight(saved, targetPresent);
      }
    }

    /** Alt+R: re-attach and apply the saved height whatever the attach
        returned. */
    method ForceReapply(targetPresent: bool)
      modifies this`applied
      ensures applied == if targetPresent then Some(SavedHeight(stored)) else old(applied)
    {
      var saved := SavedHeight(stored);
      var _ := ApplyHeight(saved, targetPresent);
    }
  }

  /** `init`: ticks 150 ms apart until `attachGripOnce` succeeds or 20
      ticks have run, then starts the observer. `attach(t)` is what the
      t-th attempt returns; the results are the number of ticks, whether
      the last one attached, and when the observer starts. */
  method Init(attach: nat -> bool) returns (tries: nat, attached: bool, observerAt: int)
    ensures 1 <= tries <= MAX_TRIES
    ensures attached == attach(tries)
    ensures attached || tries == MAX_TRIES
    ensures forall t :: 1 <= t < tries ==> !attach(t)
    ensures observerAt == RETRY_MS * (tries - 1)
  {
    tries := 0;
    var now := 0;
    while true
      invariant tries < MAX_TRIES
      invariant forall t :: 1 <= t <= tries ==> !attach(t)
      invariant now == RETRY_MS * tries
      decreases MAX_TRIES - tries
    {
      tries := tries + 1;
      attached := attach(tries);
      if attached || tries >= MAX_TRIES {
        break;
      }
      now := now + RETRY_MS;
    }
    observerAt := now;
  }

  /** Press with the target 420 px high, move the pointer up 100 px in a
      1000 px viewport, let the frame run and release: 520 px is pending
      after the move and is what a reload reads back. */
  method DragScenario() returns (pendingAfterMove: Option<int>, reloaded: int)
    ensures pendingAfterMove == Some(520) && reloaded == 520
  {
    var r := new Resizer(None, true);
    ParseIntOfString(420, "px");
    r.OnDown(Target(true, PxText(420)), 500);
    r.OnMove(400, 1000, 1000, 1);
    pendingAfterMove := r.pending;
    r.Flush(true);
    ParseIntOfString(520, "px");
    r.OnUp(Target(true, PxText(520)));
    SavedHeightRestores(520);
    reloaded := SavedHeight(r.stored);
  }
}
