/**
 The per-sender anti-replay window: a 64-bit bitmap sliding under the highest
 counter accepted so far. `Accept` is the bit-level step; everything below it
 says what that step means for the set of counters accepted.
 */
module ReplayWindows {
  import opened Words
  import opened Bits

  const WINDOW_SIZE: nat := 64

  /** The persisted parts of a window. Bit `i` stands for counter `highest - i`. */
  datatype Window = Window(highest: u64, bitmap: u64)

  const FRESH_WINDOW := Window(0, 0)

  datatype Verdict = Verdict(window: Window, admitted: bool)

  function Accept(w: Window, ctr: u64): (r: Verdict) {
    if ctr == 0 then
      Verdict(w, false)
    else if ctr > w.highest then
      var shift := ctr - w.highest;
      var slid := if shift >= WINDOW_SIZE then 0 else Shl(w.bitmap, shift);
      Verdict(Window(ctr, Or64(slid, 1)), true)
    else
      var offset := w.highest - ctr;
      if offset >= WINDOW_SIZE then Verdict(w, false)
      else if And(w.bitmap, Mask(offset)) != 0 then Verdict(w, false)
      else Verdict(Window(w.highest, Or64(w.bitmap, Mask(offset))), true)
  }

  /** Counter `c` is inside the window's reach and marked. */
  predicate Seen(w: Window, c: int) {
    && 1 <= c <= w.highest
    && w.highest - c < WINDOW_SIZE
    && Bit(w.bitmap, w.highest - c)
  }

  /** `c` has fallen off the old end of the window. */
  predicate TooOld(w: Window, c: int) {
    c + WINDOW_SIZE <= w.highest
  }

  predicate Rejects(w: Window, c: u64) {
    !Accept(w, c).admitted
  }

  /**
   The bit operations are exactly "insert into a set, then forget what slid
   out", for every window and every size of jump.
   */
  lemma AcceptMeaning(w: Window, ctr: u64)
    ensures var v := Accept(w, ctr);
            && (v.admitted <==> ctr >= 1 && !TooOld(w, ctr) && !Seen(w, ctr))
            && (!v.admitted ==> v.window == w)
            && (v.admitted ==> v.window.highest == if ctr > w.highest then ctr else w.highest)
            && (v.admitted ==> forall c: int ::
                  Seen(v.window, c) <==> (c == ctr || Seen(w, c)) && !TooOld(v.window, c))
  {
    var v := Accept(w, ctr);
    if w.highest >= ctr && w.highest - ctr < WINDOW_SIZE {
      AndMask(w.bitmap, w.highest - ctr);
    }
    if v.admitted {
      forall c: int
        ensures Seen(v.window, c) <==> (c == ctr || Seen(w, c)) && !TooOld(v.window, c)
      {
        var i := v.window.highest - c;
        if 1 <= c && 0 <= i < WINDOW_SIZE {
          MarkedBit(w, ctr, i);
        }
      }
    }
  }

  /** Where each bit of the new bitmap comes from. */
  lemma MarkedBit(w: Window, ctr: u64, i: nat)
    requires i < WINDOW_SIZE && Accept(w, ctr).admitted
    ensures var v := Accept(w, ctr).window;
            var old_i := i - (v.highest - w.highest);
            Bit(v.bitmap, i) <==> v.highest - i == ctr || (old_i >= 0 && Bit(w.bitmap, old_i))
  {
    if ctr > w.highest {
      var shift := ctr - w.highest;
      var slid := if shift >= WINDOW_SIZE then 0 else Shl(w.bitmap, shift);
      OrBit(slid, 1, i);
      Pow2Bit(0, i);
      if shift >= WINDOW_SIZE { BitOfZero(i); } else { ShlBit(w.bitmap, shift, i); }
    } else {
      var offset := w.highest - ctr;
      OrBit(w.bitmap, Mask(offset), i);
      Pow2Bit(offset, i);
    }
  }

  /** Once refused, a counter stays refused however far the window moves on. */
  lemma RejectionIsPermanent(w: Window, c: u64, d: u64)
    requires Rejects(w, c)
    ensures Rejects(Accept(w, d).window, c)
  {
    AcceptMeaning(w, c);
    AcceptMeaning(w, d);
    AcceptMeaning(Accept(w, d).window, c);
  }

  lemma AcceptedThenRejected(w: Window, c: u64)
    ensures Rejects(Accept(w, c).window, c)
  {
    AcceptMeaning(w, c);
    AcceptMeaning(Accept(w, c).window, c);
  }

  // ---- The window against a plain set of accepted counters ----

  /** The window is a faithful record of `accepted`, bit by bit. */
  ghost predicate Tracks(w: Window, accepted: set<int>) {
    && (forall c <- accepted :: 1 <= c <= w.highest)
    && (w.highest != 0 ==> w.highest in accepted)
    && (forall i: nat :: i < WINDOW_SIZE ==> (Bit(w.bitmap, i) <==> w.highest - i in accepted))
  }

  /** The specification: fresh means positive, never accepted, and not too far behind. */
  function SetAccepts(accepted: set<int>, highest: int, c: int): (r: bool) {
    c >= 1 && c !in accepted && c + WINDOW_SIZE > highest
  }

  lemma TracksStep(w: Window, accepted: set<int>, c: u64)
    requires Tracks(w, accepted)
    ensures Accept(w, c).admitted <==> SetAccepts(accepted, w.highest, c)
    ensures Tracks(Accept(w, c).window, if Accept(w, c).admitted then accepted + {c as int} else accepted)
  {
    AcceptMeaning(w, c);
    var v := Accept(w, c);
    if v.admitted {
      forall i: nat | i < WINDOW_SIZE
        ensures Bit(v.window.bitmap, i) <==> v.window.highest - i in accepted + {c as int}
      {
        MarkedBit(w, c, i);
      }
    }
  }

  function AcceptAll(w: Window, ctrs: seq<u64>): (r: seq<bool>)
    decreases |ctrs|
  {
    if ctrs == [] then []
    else [Accept(w, ctrs[0]).admitted] + AcceptAll(Accept(w, ctrs[0]).window, ctrs[1..])
  }

  function SetAcceptAll(accepted: set<int>, highest: int, ctrs: seq<u64>): (r: seq<bool>)
    decreases |ctrs|
  {
    if ctrs == [] then []
    else
      var c := ctrs[0];
      var admitted := SetAccepts(accepted, highest, c);
      [admitted] + (if admitted then
                   SetAcceptAll(accepted + {c as int}, if c > highest then c else highest, ctrs[1..])
                 else
                   SetAcceptAll(accepted, highest, ctrs[1..]))
  }

  lemma {:induction false} WindowRefinesSet(w: Window, accepted: set<int>, ctrs: seq<u64>)
    requires Tracks(w, accepted)
    ensures AcceptAll(w, ctrs) == SetAcceptAll(accepted, w.highest, ctrs)
    decreases |ctrs|
  {
    if ctrs != [] {
      var c := ctrs[0];
      TracksStep(w, accepted, c);
      AcceptMeaning(w, c);
      var admitted := Accept(w, c).admitted;
      WindowRefinesSet(Accept(w, c).window, if admitted then accepted + {c as int} else accepted, ctrs[1..]);
    }
  }

  /** From power-on, the answers to any call sequence are those of the plain set. */
  lemma WindowIsASet(ctrs: seq<u64>)
    ensures AcceptAll(FRESH_WINDOW, ctrs) == SetAcceptAll({}, 0, ctrs)
  {
    forall i: nat | i < WINDOW_SIZE ensures !Bit(0, i) { BitOfZero(i); }
    WindowRefinesSet(FRESH_WINDOW, {}, ctrs);
  }

  class ReplayWindow {
    var highest: u64
    var bitmap: u64

    constructor ()
      ensures Parts() == FRESH_WINDOW
    {
      highest, bitmap := 0, 0;
    }

    constructor FromParts(parts: Window)
      ensures Parts() == parts
    {
      highest, bitmap := parts.highest, parts.bitmap;
    }

    function Parts(): (r: Window)
      reads this
    {
      Window(highest, bitmap)
    }

    method CheckAndAccept(ctr: u64) returns (admitted: bool)
      modifies this
      ensures Verdict(Parts(), admitted) == Accept(old(Parts()), ctr)
      ensures admitted <==> ctr >= 1 && !TooOld(old(Parts()), ctr) && !Seen(old(Parts()), ctr)
    {
      AcceptMeaning(Parts(), ctr);
      if ctr == 0 {
        return false;
      }
      if ctr > highest {
        var shift := ctr - highest;
        bitmap := if shift >= WINDOW_SIZE then 0 else Shl(bitmap, shift);
        bitmap := Or64(bitmap, 1);
        highest := ctr;
        return true;
      }
      var offset := highest - ctr;
      if offset >= WINDOW_SIZE {
        return false;
      }
      if And(bitmap, Mask(offset)) != 0 {
        return false;
      }
      bitmap := Or64(bitmap, Mask(offset));
      return true;
    }
  }
}
