/**
 * `client_init_data`: the single start-up pass that probes every test item
 * and paints its result on the panel.
 *
 * The device checker is outside this model: `answers[i]` is what the i-th
 * `device_check` call returns. The UI library is outside it too: each call
 * into it is appended to the returned event trace.
 */
module Client {
  import opened CText
  import opened Protocol
  import opened Panel
  import opened Status

  function RequestOf(item: Item): Request
  {
    Request(item.uiId, item.grpId, item.devId)
  }

  /** What the pass works out for one item: the message it sends, the colour and the text it earns. */
  datatype Outcome = Outcome(slot: int, isInfo: bool, msg: seq<char>, colour: Colour, text: seq<char>)

  function OutcomeOf(item: Item, answer: ProbeResult): Outcome
  {
    Outcome(item.uiId, item.isInfo, Encode(RequestOf(item)), Verdict(answer.status), DisplayText(item, answer.resp))
  }

  /** The calls made for one item: probe, colour unless the item is info-only, then text. */
  function BlockEvents(o: Outcome): (es: seq<Event>)
    ensures Flush !in es
  {
    [Probe(o.msg)] + (if o.isInfo then [] else [SetColour(o.slot, o.colour)]) + [SetText(o.slot, o.text)]
  }

  function ItemEvents(item: Item, answer: ProbeResult): seq<Event>
  {
    BlockEvents(OutcomeOf(item, answer))
  }

  /** The outcomes of the items, in item order. */
  function Outcomes(items: seq<Item>, answers: seq<ProbeResult>): (os: seq<Outcome>)
    requires |answers| == |items|
    ensures |os| == |items|
  {
    seq(|items|, i requires 0 <= i < |items| => OutcomeOf(items[i], answers[i]))
  }

  /** The calls made for a run of outcomes, one block each, in order. */
  function Blocks(os: seq<Outcome>): (es: seq<Event>)
    ensures Flush !in es
  {
    if os == [] then [] else Blocks(os[..|os| - 1]) + BlockEvents(os[|os| - 1])
  }

  /** The whole pass: one flush, the items' calls, one more flush. */
  function InitTrace(items: seq<Item>, answers: seq<ProbeResult>): seq<Event>
    requires |answers| == |items|
  {
    [Flush] + Blocks(Outcomes(items, answers)) + [Flush]
  }

  /** Reference for the colour calls: one (slot, verdict) per non-info item, in item order. */
  function NonInfoVerdicts(items: seq<Item>, answers: seq<ProbeResult>): seq<(int, Colour)>
    requires |answers| == |items|
  {
    if items == [] then []
    else
      var n := |items| - 1;
      NonInfoVerdicts(items[..n], answers[..n])
        + (if items[n].isInfo then [] else [(items[n].uiId, Verdict(answers[n].status))])
  }

  predicate UniqueIds(items: seq<Item>)
  {
    forall i, j :: 0 <= i < j < |items| ==> items[i].uiId != items[j].uiId
  }

  /**
   * The loop of `client_init_data` over `i_item[0 .. i_item_cnt-1]`; returns
   * the calls it makes, which are exactly `InitTrace`.
   */
  method InitData(items: array<Item>, answers: seq<ProbeResult>) returns (trace: seq<Event>)
    requires |answers| == items.Length
    ensures trace == InitTrace(items[..], answers)
  {
    trace := [Flush];
    var i := 0;
    while i < items.Length
      invariant 0 <= i <= items.Length
      invariant trace == [Flush] + Blocks(Outcomes(items[..i], answers[..i]))
    {
      var item := items[i];
      var answer := answers[i];
      var calls := ItemCalls(item, answer);
      ghost var done := Blocks(Outcomes(items[..i], answers[..i]));
      OutcomesStep(items[..], answers, i + 1);
      assert items[..][..i + 1] == items[..i + 1] && items[..][..i] == items[..i] && items[..][i] == item;
      BlocksStep(Outcomes(items[..i], answers[..i]), OutcomeOf(item, answer));
      assert Blocks(Outcomes(items[..i + 1], answers[..i + 1])) == done + calls;
      AppendAssoc([Flush], done, calls);
      trace := trace + calls;
      i := i + 1;
    }
    assert items[..i] == items[..] && answers[..i] == answers;
    trace := trace + [Flush];
  }

  /** One iteration of the loop: the calls it makes for `item` once the device checker gave `answer`. */
  method ItemCalls(item: Item, answer: ProbeResult) returns (calls: seq<Event>)
    ensures calls == BlockEvents(OutcomeOf(item, answer))
  {
    var msg := Encode(RequestOf(item));
    calls := [Probe(msg)];
    if !item.isInfo {
      calls := calls + [SetColour(item.uiId, if answer.status != 0 then Green else Red)];
    }
    var text := CStr(answer.resp);
    if item.grpId != GROUP_HDMI && !(item.grpId == GROUP_ETHERNET && item.devId == 1) {
      text := Render(Atoi(text));
    }
    calls := calls + [SetText(item.uiId, text)];
  }

  /** Regrouping a concatenation; stated once so the loop above does not search for it. */
  lemma AppendAssoc(a: seq<Event>, b: seq<Event>, c: seq<Event>)
    ensures (a + b) + c == a + (b + c)
  {
  }

  lemma OutcomesStep(items: seq<Item>, answers: seq<ProbeResult>, n: nat)
    requires |answers| == |items| && 0 < n <= |items|
    ensures Outcomes(items[..n], answers[..n])
         == Outcomes(items[..n - 1], answers[..n - 1]) + [OutcomeOf(items[n - 1], answers[n - 1])]
  {
    var prev := Outcomes(items[..n - 1], answers[..n - 1]);
    var o := OutcomeOf(items[n - 1], answers[n - 1]);
    forall j | 0 <= j < n ensures Outcomes(items[..n], answers[..n])[j] == (prev + [o])[j] {
      if j < n - 1 {
        assert items[..n][j] == items[..n - 1][j] && answers[..n][j] == answers[..n - 1][j];
      }
    }
  }

  lemma BlocksStep(os: seq<Outcome>, o: Outcome)
    ensures Blocks(os + [o]) == Blocks(os) + BlockEvents(o)
  {
    assert (os + [o])[..|os|] == os;
  }

  // ---------------------------------------------------------------------
  // The calls a run of outcomes makes
  // ---------------------------------------------------------------------

  /**
   * One item gets exactly one probe with its message, one text call with its
   * text, and one colour call carrying its verdict unless it is info-only.
   */
  lemma BlockProjections(o: Outcome)
    ensures Probes(BlockEvents(o)) == [o.msg]
    ensures Colours(BlockEvents(o)) == if o.isInfo then [] else [(o.slot, o.colour)]
    ensures Texts(BlockEvents(o)) == [(o.slot, o.text)]
  {
    var probe := [Probe(o.msg)];
    var colour := if o.isInfo then [] else [SetColour(o.slot, o.colour)];
    var text := [SetText(o.slot, o.text)];
    KeepAppend(probe, colour, PickProbe);
    KeepAppend(probe + colour, text, PickProbe);
    KeepAppend(probe, colour, PickColour);
    KeepAppend(probe + colour, text, PickColour);
    KeepAppend(probe, colour, PickText);
    KeepAppend(probe + colour, text, PickText);
  }

  /** Appending one block appends its projections. */
  lemma BlocksAppend(os: seq<Outcome>, o: Outcome)
    ensures Probes(Blocks(os + [o])) == Probes(Blocks(os)) + [o.msg]
    ensures Colours(Blocks(os + [o])) == Colours(Blocks(os)) + (if o.isInfo then [] else [(o.slot, o.colour)])
    ensures Texts(Blocks(os + [o])) == Texts(Blocks(os)) + [(o.slot, o.text)]
  {
    BlocksStep(os, o);
    BlockProjections(o);
    KeepAppend(Blocks(os), BlockEvents(o), PickProbe);
    KeepAppend(Blocks(os), BlockEvents(o), PickColour);
    KeepAppend(Blocks(os), BlockEvents(o), PickText);
  }

  /** One probe per outcome, in order, carrying its message. */
  lemma {:induction false} BlocksProbes(os: seq<Outcome>)
    ensures |Probes(Blocks(os))| == |os|
    ensures forall i :: 0 <= i < |os| ==> Probes(Blocks(os))[i] == os[i].msg
  {
    if os != [] {
      var n := |os| - 1;
      BlocksProbes(os[..n]);
      assert os == os[..n] + [os[n]];
      BlocksAppend(os[..n], os[n]);
    }
  }

  /** One text call per outcome, in order, carrying its slot and text. */
  lemma {:induction false} BlocksTexts(os: seq<Outcome>)
    ensures |Texts(Blocks(os))| == |os|
    ensures forall i :: 0 <= i < |os| ==> Texts(Blocks(os))[i] == (os[i].slot, os[i].text)
  {
    if os != [] {
      var n := |os| - 1;
      BlocksTexts(os[..n]);
      assert os == os[..n] + [os[n]];
      BlocksAppend(os[..n], os[n]);
    }
  }

  predicate UniqueSlots(os: seq<Outcome>)
  {
    forall i, j :: 0 <= i < j < |os| ==> os[i].slot != os[j].slot
  }

  /** A slot no outcome addresses gets no call at all. */
  lemma {:induction false} BlocksAbsentSlot(os: seq<Outcome>, slot: int)
    requires forall i :: 0 <= i < |os| ==> os[i].slot != slot
    ensures SlotCount(Texts(Blocks(os)), slot) == 0
    ensures SlotCount(Colours(Blocks(os)), slot) == 0
  {
    if os != [] {
      var n := |os| - 1;
      BlocksAbsentSlot(os[..n], slot);
      assert os == os[..n] + [os[n]];
      BlocksAppend(os[..n], os[n]);
      SlotCountAppend(Texts(Blocks(os[..n])), [(os[n].slot, os[n].text)], slot);
      SlotCountAppend(Colours(Blocks(os[..n])), if os[n].isInfo then [] else [(os[n].slot, os[n].colour)], slot);
    }
  }

  /** With distinct slots, each outcome's slot gets one text call, and one colour call unless info-only. */
  lemma {:induction false} BlocksSlotOnce(os: seq<Outcome>, k: nat)
    requires UniqueSlots(os) && k < |os|
    ensures SlotCount(Texts(Blocks(os)), os[k].slot) == 1
    ensures SlotCount(Colours(Blocks(os)), os[k].slot) == if os[k].isInfo then 0 else 1
  {
    var n := |os| - 1;
    var slot := os[k].slot;
    assert os == os[..n] + [os[n]];
    BlocksAppend(os[..n], os[n]);
    SlotCountAppend(Texts(Blocks(os[..n])), [(os[n].slot, os[n].text)], slot);
    SlotCountAppend(Colours(Blocks(os[..n])), if os[n].isInfo then [] else [(os[n].slot, os[n].colour)], slot);
    if k == n {
      BlocksAbsentSlot(os[..n], slot);
    } else {
      assert os[n].slot != slot;
      BlocksSlotOnce(os[..n], k);
    }
  }

  // ---------------------------------------------------------------------
  // What the pass does, stated over the items
  // ---------------------------------------------------------------------

  lemma {:induction false} NoFlushNoCount(t: seq<Event>)
    requires Flush !in t
    ensures Flushes(t) == 0
  {
    if t != [] {
      assert t[..|t| - 1] + [t[|t| - 1]] == t;
      NoFlushNoCount(t[..|t| - 1]);
    }
  }

  /** The colour calls are the non-info items' verdicts, in index order. */
  lemma {:induction false} ColoursInOrder(items: seq<Item>, answers: seq<ProbeResult>)
    requires |answers| == |items|
    ensures Colours(Blocks(Outcomes(items, answers))) == NonInfoVerdicts(items, answers)
  {
    if items != [] {
      var n := |items| - 1;
      ColoursInOrder(items[..n], answers[..n]);
      OutcomesStep(items, answers, |items|);
      assert items[..|items|] == items && answers[..|items|] == answers;
      BlocksAppend(Outcomes(items[..n], answers[..n]), OutcomeOf(items[n], answers[n]));
    }
  }

  /** Projections of the whole trace are those of the items' blocks: the two flushes add nothing. */
  lemma FlushesAddNothing(body: seq<Event>)
    requires Flush !in body
    ensures Probes([Flush] + body + [Flush]) == Probes(body)
    ensures Texts([Flush] + body + [Flush]) == Texts(body)
    ensures Colours([Flush] + body + [Flush]) == Colours(body)
    ensures Flushes([Flush] + body + [Flush]) == 2
  {
    NoFlushNoCount(body);
    KeepAppend([Flush], body, PickProbe);
    KeepAppend([Flush] + body, [Flush], PickProbe);
    KeepAppend([Flush], body, PickText);
    KeepAppend([Flush] + body, [Flush], PickText);
    KeepAppend([Flush], body, PickColour);
    KeepAppend([Flush] + body, [Flush], PickColour);
    KeepAppend([Flush], body, PickFlush);
    KeepAppend([Flush] + body, [Flush], PickFlush);
  }

  /**
   * The start-up pass: flush, then every item probed once in index order
   * with its text set, colours only for non-info items, then flush; two
   * flushes in all, at the two ends.
   */
  lemma {:induction false} InitPass(items: seq<Item>, answers: seq<ProbeResult>)
    requires |answers| == |items|
    ensures var t := InitTrace(items, answers);
      && t[0] == Flush && t[|t| - 1] == Flush
      && (forall k :: 0 < k < |t| - 1 ==> t[k] != Flush)
      && Flushes(t) == 2
      && |Probes(t)| == |items|
      && (forall i :: 0 <= i < |items| ==> Probes(t)[i] == Encode(RequestOf(items[i])))
      && |Texts(t)| == |items|
      && (forall i :: 0 <= i < |items| ==> Texts(t)[i] == (items[i].uiId, DisplayText(items[i], answers[i].resp)))
      && Colours(t) == NonInfoVerdicts(items, answers)
  {
    var os := Outcomes(items, answers);
    var body := Blocks(os);
    var t := InitTrace(items, answers);
    FlushesAddNothing(body);
    BlocksProbes(os);
    BlocksTexts(os);
    ColoursInOrder(items, answers);
    forall k | 0 < k < |t| - 1 ensures t[k] != Flush {
      assert t[k] == body[k - 1];
    }
  }

  /**
   * With distinct slot ids, every item's slot gets exactly one text call,
   * a non-info item's slot exactly one colour call, and an info item's slot
   * none.
   */
  lemma {:induction false} EachSlotOnce(items: seq<Item>, answers: seq<ProbeResult>, k: nat)
    requires |answers| == |items| && UniqueIds(items) && k < |items|
    ensures SlotCount(Texts(InitTrace(items, answers)), items[k].uiId) == 1
    ensures SlotCount(Colours(InitTrace(items, answers)), items[k].uiId) == if items[k].isInfo then 0 else 1
  {
    var os := Outcomes(items, answers);
    assert UniqueSlots(os);
    BlocksSlotOnce(os, k);
    FlushesAddNothing(Blocks(os));
  }

  // ---------------------------------------------------------------------
  // End-to-end scenarios for single items
  // ---------------------------------------------------------------------

  /** A numeric device that passes with "003" shows green and "3". */
  lemma NumericPassScenario(grp: int)
    requires grp != GROUP_HDMI && grp != GROUP_ETHERNET
    ensures ItemEvents(Item(1, grp, 1, false), ProbeResult(1, ['0', '0', '3', '\0', '\0', '\0']))
         == [Probe(Encode(Request(1, grp, 1))), SetColour(1, Green), SetText(1, "3")]
  {
    var resp: RespBuffer := ['0', '0', '3', '\0', '\0', '\0'];
    assert resp == "003" + ['\0', '\0', '\0'];
    CStrOfTerminated("003", ['\0', '\0', '\0']);
    ReformatThreeDigits();
  }

  /** A failing HDMI check shows red and its "FAIL" token unchanged. */
  lemma HdmiFailScenario()
    ensures ItemEvents(Item(2, GROUP_HDMI, 1, false), ProbeResult(0, ['F', 'A', 'I', 'L', '\0', '\0']))
         == [Probe(Encode(Request(2, GROUP_HDMI, 1))), SetColour(2, Red), SetText(2, "FAIL")]
  {
    var resp: RespBuffer := ['F', 'A', 'I', 'L', '\0', '\0'];
    assert resp == "FAIL" + ['\0', '\0'];
    CStrOfTerminated("FAIL", ['\0', '\0']);
  }

  /** The Ethernet link check keeps its "PASS" token although Ethernet is not HDMI. */
  lemma EthernetLinkScenario()
    ensures ItemEvents(Item(3, GROUP_ETHERNET, 1, false), ProbeResult(1, ['P', 'A', 'S', 'S', '\0', '\0']))
         == [Probe(Encode(Request(3, GROUP_ETHERNET, 1))), SetColour(3, Green), SetText(3, "PASS")]
  {
    var resp: RespBuffer := ['P', 'A', 'S', 'S', '\0', '\0'];
    assert resp == "PASS" + ['\0', '\0'];
    CStrOfTerminated("PASS", ['\0', '\0']);
  }
}
