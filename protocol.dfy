/**
 * The request the client sends to the device checker for one test item:
 * `sprintf(msg, "@C%04d%02d%03dI0010#", ui_id, grp_id, dev_id)`.
 *
 * Layout for ids that fit their fields (0-indexed offsets):
 *   0 '@' | 1 'C' | 2-5 ui_id | 6-7 grp_id | 8-10 dev_id | 11-16 "I0010#"
 * which is 17 characters. The encoder does no width check; `Decode` reads
 * the fields back at these fixed offsets.
 */
module Protocol {
  import opened CText

  const MESSAGE_LENGTH := 17
  const UI_ID_WIDTH := 4
  const GRP_ID_WIDTH := 2
  const DEV_ID_WIDTH := 3
  const TRAILER := "I0010#"

  /** The three identifiers a request carries. */
  datatype Request = Request(uiId: int, grpId: int, devId: int)

  /** Every identifier fits its zero-padded field. */
  predicate InRange(r: Request)
  {
    0 <= r.uiId < Pow10(UI_ID_WIDTH) && 0 <= r.grpId < Pow10(GRP_ID_WIDTH) && 0 <= r.devId < Pow10(DEV_ID_WIDTH)
  }

  /** The message `sprintf` builds, for any ids (no width check, as in the source). */
  function Encode(r: Request): (m: seq<char>)
    ensures |m| >= MESSAGE_LENGTH
    ensures m[..2] == "@C" && m[|m| - |TRAILER|..] == TRAILER
  {
    "@C" + ZeroPadded(r.uiId, UI_ID_WIDTH) + ZeroPadded(r.grpId, GRP_ID_WIDTH)
      + ZeroPadded(r.devId, DEV_ID_WIDTH) + TRAILER
  }

  /** Reads a message back at the fixed offsets; `None` for anything not shaped like a request. */
  function Decode(msg: seq<char>): (r: Option<Request>)
    ensures r.Some? ==> |msg| == MESSAGE_LENGTH && msg[0] == '@' && msg[1] == 'C'
  {
    if && |msg| == MESSAGE_LENGTH && msg[..2] == "@C" && msg[11..] == TRAILER
       && AllDigits(msg[2..6]) && AllDigits(msg[6..8]) && AllDigits(msg[8..11])
    then Some(Request(Value(msg[2..6]), Value(msg[6..8]), Value(msg[8..11])))
    else None
  }

  datatype Option<T> = None | Some(value: T)

  /**
   * For ids that fit, the message is exactly '@','C', the 4-digit ui_id, the
   * 2-digit grp_id, the 3-digit dev_id and "I0010#": 17 characters.
   */
  lemma EncodeLayout(r: Request)
    requires InRange(r)
    ensures Encode(r) == "@C" + Fixed(r.uiId, 4) + Fixed(r.grpId, 2) + Fixed(r.devId, 3) + TRAILER
    ensures |Encode(r)| == MESSAGE_LENGTH
  {
    ZeroPaddedField(r.uiId, UI_ID_WIDTH);
    ZeroPaddedField(r.grpId, GRP_ID_WIDTH);
    ZeroPaddedField(r.devId, DEV_ID_WIDTH);
  }

  /** A message laid out as '@','C', three digit fields of the right widths and the trailer decodes to their values. */
  lemma DecodeLayout(u: seq<char>, g: seq<char>, d: seq<char>)
    requires |u| == UI_ID_WIDTH && |g| == GRP_ID_WIDTH && |d| == DEV_ID_WIDTH
    requires AllDigits(u) && AllDigits(g) && AllDigits(d)
    ensures Decode("@C" + u + g + d + TRAILER) == Some(Request(Value(u), Value(g), Value(d)))
  {
    LayoutSlices("@C", u, g, d, TRAILER);
  }

  /** The fields of a laid-out message sit at their fixed offsets. */
  lemma LayoutSlices(h: seq<char>, u: seq<char>, g: seq<char>, d: seq<char>, t: seq<char>)
    requires |h| == 2 && |u| == UI_ID_WIDTH && |g| == GRP_ID_WIDTH && |d| == DEV_ID_WIDTH
    ensures var m := h + u + g + d + t;
      m[..2] == h && m[2..6] == u && m[6..8] == g && m[8..11] == d && m[11..] == t
  {
    var m := h + u + g + d + t;
    assert m[..2] == h;
    assert m[2..6] == u;
    assert m[6..8] == g;
    assert m[8..11] == d;
    assert m[11..] == t;
  }

  /** Round trip: decoding an encoded request gives the request back. */
  lemma DecodeEncode(r: Request)
    requires InRange(r)
    ensures Decode(Encode(r)) == Some(r)
  {
    EncodeLayout(r);
    DecodeLayout(Fixed(r.uiId, 4), Fixed(r.grpId, 2), Fixed(r.devId, 3));
    ValueOfFixed(r.uiId, 4);
    ValueOfFixed(r.grpId, 2);
    ValueOfFixed(r.devId, 3);
  }

  /** The decoder accepts nothing but encoder output: what it reads re-encodes to the same message. */
  lemma EncodeDecode(msg: seq<char>)
    requires Decode(msg).Some?
    ensures InRange(Decode(msg).value)
    ensures Encode(Decode(msg).value) == msg
  {
    var r := Decode(msg).value;
    var u, g, d := msg[2..6], msg[6..8], msg[8..11];
    FixedOfValue(u);
    FixedOfValue(g);
    FixedOfValue(d);
    EncodeLayout(r);
    assert Encode(r) == "@C" + u + g + d + TRAILER;
    assert msg == msg[..2] + u + g + d + msg[11..];
  }

  /**
   * Because the encoder checks no widths, a request survives the round trip
   * exactly when its ids fit: an id that is negative or too wide spills over
   * its field and the message no longer decodes.
   */
  lemma RoundTripIffInRange(r: Request)
    ensures Decode(Encode(r)) == Some(r) <==> InRange(r)
    ensures !InRange(r) ==> Decode(Encode(r)) == None
  {
    if InRange(r) {
      DecodeEncode(r);
    } else {
      var u := ZeroPadded(r.uiId, UI_ID_WIDTH);
      var g := ZeroPadded(r.grpId, GRP_ID_WIDTH);
      var d := ZeroPadded(r.devId, DEV_ID_WIDTH);
      ZeroPaddedField(r.uiId, UI_ID_WIDTH);
      ZeroPaddedField(r.grpId, GRP_ID_WIDTH);
      ZeroPaddedField(r.devId, DEV_ID_WIDTH);
      var m := Encode(r);
      assert m == "@C" + u + g + d + TRAILER;
      if |m| == MESSAGE_LENGTH {
        assert |u| == 4 && |g| == 2 && |d| == 3;
        LayoutSlices("@C", u, g, d, TRAILER);
      }
    }
  }
}
