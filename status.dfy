/**
 * What the panel shows for one test item once the device checker has
 * answered: the pass/fail colour and the text.
 */
module Status {
  import opened CText
  import opened Panel

  /**
   * eGROUP_HDMI and eGROUP_ETHERNET come from lib_dev_check.h, which is not
   * part of this model; their numeric values are left open and nothing
   * proved here depends on them.
   */
  const GROUP_HDMI: int
  const GROUP_ETHERNET: int

  /** SIZE_RESP_BYTES: the response buffer holds six characters plus a terminator. */
  const SIZE_RESP_BYTES := 6

  /** The six response characters the device checker leaves in `resp` (NUL-padded). */
  type RespBuffer = s: seq<char> | |s| == SIZE_RESP_BYTES witness ['\0', '\0', '\0', '\0', '\0', '\0']

  /** One entry of the UI's item table (`i_item[]`). */
  datatype Item = Item(uiId: int, grpId: int, devId: int, isInfo: bool)

  /** What one `device_check` call returns: its status and the response buffer it filled. */
  datatype ProbeResult = ProbeResult(status: int, resp: RespBuffer)

  /**
   * HDMI answers with a PASS/FAIL-style token, and so does the Ethernet link
   * check (device 1); every other device answers with a number.
   */
  predicate KeepsRawText(grpId: int, devId: int): (raw: bool)
    ensures grpId == GROUP_HDMI ==> raw
    ensures grpId == GROUP_ETHERNET && devId == 1 ==> raw
    ensures grpId != GROUP_HDMI && grpId != GROUP_ETHERNET ==> !raw
    ensures devId != 1 ==> (raw <==> grpId == GROUP_HDMI)
  {
    grpId == GROUP_HDMI || (grpId == GROUP_ETHERNET && devId == 1)
  }

  /**
   * `sprintf(resp, "%d", atoi(resp))`: the response re-read as a number and
   * printed back; reading the result again gives the same number.
   */
  function Reformat(text: seq<char>): (r: seq<char>)
    ensures r != []
    ensures Atoi(r) == Atoi(text)
  {
    AtoiRender(Atoi(text));
    Render(Atoi(text))
  }

  /** The text set on the item's slot. */
  function DisplayText(item: Item, resp: RespBuffer): (text: seq<char>)
    ensures KeepsRawText(item.grpId, item.devId) ==> text == CStr(resp)
    ensures !KeepsRawText(item.grpId, item.devId) ==> text == Reformat(CStr(resp))
    ensures |text| <= SIZE_RESP_BYTES
  {
    var raw := CStr(resp);
    ReformatLength(raw);
    if KeepsRawText(item.grpId, item.devId) then raw else Reformat(raw)
  }

  /** A non-zero status is a pass (green), zero a fail (red). */
  function Verdict(status: int): (c: Colour)
    ensures c == Green <==> status != 0
    ensures c == Red <==> status == 0
  {
    if status != 0 then Green else Red
  }

  // ---------------------------------------------------------------------
  // Properties of the numeric re-rendering
  // ---------------------------------------------------------------------

  /**
   * The re-rendered text is canonical decimal: never empty, never a '+',
   * "0" exactly for zero, and no leading zero after the optional '-'.
   */
  lemma ReformatCanonical(text: seq<char>)
    ensures var r := Reformat(text);
      && r != [] && r[0] != '+'
      && (r == "0" <==> Atoi(text) == 0)
      && (r[0] == '-' ==> |r| >= 2 && r[1] != '0' && AllDigits(r[1..]))
      && (r[0] != '-' ==> AllDigits(r) && (|r| > 1 ==> r[0] != '0'))
  {
    RenderCanonical(Atoi(text));
  }

  /** Re-rendering is idempotent: the reformatted text reformats to itself. */
  lemma ReformatIdempotent(text: seq<char>)
    ensures Reformat(Reformat(text)) == Reformat(text)
  {
    AtoiRender(Atoi(text));
  }

  /** The reformatted text is never longer than the response it came from (or "0"). */
  lemma ReformatLength(text: seq<char>)
    ensures |Reformat(text)| <= if |text| == 0 then 1 else |text|
  {
    var t := SkipSpaces(text);
    if t != [] && (t[0] == '-' || t[0] == '+') {
      var d := LeadingDigits(t[1..]);
      DigitsOfValue(d);
      if t[0] == '-' && Value(d) != 0 {
        assert |Reformat(text)| == 1 + |Digits(Value(d))|;
      }
    } else {
      DigitsOfValue(LeadingDigits(t));
    }
  }

  /** Numeric responses lose their leading zeros: "007" shows as "7". */
  lemma ReformatLeadingZeros()
    ensures Reformat("007") == "7"
  {
    var s := "007";
    assert SkipSpaces(s) == s;
    assert LeadingDigits(s[2..]) == "7";
    assert LeadingDigits(s[1..]) == "07";
    assert LeadingDigits(s) == s;
    assert Value(s[..2]) == 0;
    assert Value(s) == 7;
  }

  /** "003" is shown as "3". */
  lemma ReformatThreeDigits()
    ensures Reformat("003") == "3"
  {
    var s := "003";
    assert SkipSpaces(s) == s;
    assert LeadingDigits(s[2..]) == "3";
    assert LeadingDigits(s[1..]) == "03";
    assert LeadingDigits(s) == s;
    assert Value(s[..2]) == 0;
    assert Value(s) == 3;
  }

  /** A response with no digits shows as "0". */
  lemma ReformatNoDigits()
    ensures Reformat("abc") == "0"
  {
  }

  /** A negative response keeps its sign: "-12" shows as "-12". */
  lemma ReformatNegative()
    ensures Reformat("-12") == "-12"
  {
    assert Value("12") == 12;
    assert Atoi("-12") == -12;
    assert Digits(12) == "12";
  }
}
