/**
 * The calls the client makes into code outside this model, kept as an
 * ordered trace: the device probe (`device_check`) and the UI library's
 * `ui_set_ritem` (colour), `ui_set_sitem` (text) and `ui_update` (flush).
 */
module Panel {

  /** COLOR_GREEN, COLOR_RED, and the panel's configured background colour `bc`. */
  datatype Colour = Green | Red | Background

  datatype Event =
    | Probe(msg: seq<char>)
    | SetColour(slot: int, colour: Colour)
    | SetText(slot: int, text: seq<char>)
    | Flush

  /** The events of `t` that `pick` selects, projected and kept in order. */
  function Keep<T>(t: seq<Event>, pick: Event -> seq<T>): seq<T>
  {
    if t == [] then [] else Keep(t[..|t| - 1], pick) + pick(t[|t| - 1])
  }

  lemma {:induction false} KeepAppend<T>(a: seq<Event>, b: seq<Event>, pick: Event -> seq<T>)
    ensures Keep(a + b, pick) == Keep(a, pick) + Keep(b, pick)
  {
    if b != [] {
      var b' := b[..|b| - 1];
      assert (a + b)[..|a + b| - 1] == a + b';
      KeepAppend(a, b', pick);
    } else {
      assert a + b == a;
    }
  }

  function PickProbe(e: Event): seq<seq<char>> { if e.Probe? then [e.msg] else [] }
  function PickColour(e: Event): seq<(int, Colour)> { if e.SetColour? then [(e.slot, e.colour)] else [] }
  function PickText(e: Event): seq<(int, seq<char>)> { if e.SetText? then [(e.slot, e.text)] else [] }
  function PickFlush(e: Event): seq<Event> { if e.Flush? then [e] else [] }

  /** The messages sent to the probe, in order. */
  function Probes(t: seq<Event>): seq<seq<char>> { Keep(t, PickProbe) }

  /** The (slot, colour) pairs set, in order. */
  function Colours(t: seq<Event>): seq<(int, Colour)> { Keep(t, PickColour) }

  /** The (slot, text) pairs set, in order. */
  function Texts(t: seq<Event>): seq<(int, seq<char>)> { Keep(t, PickText) }

  /** How many times the panel was flushed. */
  function Flushes(t: seq<Event>): nat { |Keep(t, PickFlush)| }

  /** How many of the pairs address `slot`. */
  function SlotCount<T>(ps: seq<(int, T)>, slot: int): nat
  {
    if ps == [] then 0 else SlotCount(ps[..|ps| - 1], slot) + (if ps[|ps| - 1].0 == slot then 1 else 0)
  }

  lemma {:induction false} SlotCountAppend<T>(a: seq<(int, T)>, b: seq<(int, T)>, slot: int)
    ensures SlotCount(a + b, slot) == SlotCount(a, slot) + SlotCount(b, slot)
  {
    if b != [] {
      var b' := b[..|b| - 1];
      assert (a + b)[..|a + b| - 1] == a + b';
      SlotCountAppend(a, b', slot);
    } else {
      assert a + b == a;
    }
  }
}
