/** Texts as packets: what a text sent comes back as. */
module Texts {
  import opened Wire
  import opened PacketValues
  import opened Sessions
  import opened Delivery
  import StreamTexts

  /** The text a command or XML packet carries. */
  function TextOf(p: PacketValue): bytes { if p.ptype == XML_PACKET then p.xmlResponse else p.commandResponse }

  lemma TerminatorTrimmed(text: bytes)
    ensures Trim(text + [0]) == Trim(text)
    ensures Trim(text) == text <==> Bare(text)
  {
    TrimSplit(text);
    var r := Trim(text);
    var i: nat, j: nat :| text == Zeros(i) + r + Zeros(j);
    assert text + [0] == Zeros(i) + r + Zeros(j + 1);
    TrimBetween(i, r, j + 1);
    if Bare(text) {
      assert text == Zeros(0) + text + Zeros(0);
      TrimBetween(0, text, 0);
    }
  }

  /** A text is framed as a packet whose payload is the text and a NUL. */
  lemma TextFramed(o: Order, text: bytes, ptype: u32)
    requires |text| + PACKET_HEADER_SIZE + 1 < 0x1_0000_0000
    ensures EncodeString(o, text, ptype) == Encode(o, WirePacket(ptype, text + [0]))
  {
  }

  lemma TextHeader(o: Order, text: bytes, ptype: u32)
    ensures var b := EncodeString(o, text, ptype);
      |b| == |text| + PACKET_HEADER_SIZE + 1 && b[PACKET_HEADER_SIZE..] == text + [0]
      && Get32(o, b, 0) == (|text| + PACKET_HEADER_SIZE + 1) % 0x1_0000_0000 && Get32(o, b, 4) == ptype
  {
    var b, n := EncodeString(o, text, ptype), (|text| + PACKET_HEADER_SIZE + 1) % 0x1_0000_0000;
    assert b[0..4] == PutOrder32(o, n) && b[4..8] == PutOrder32(o, ptype);
    Word(o, b, 0, n);
    Word(o, b, 4, ptype);
  }

  /** A text sent as a command or as XML decodes, in the same byte order, to itself exactly when it neither starts
      nor ends with a NUL, and otherwise to what is left without those NULs. NULs inside survive, and so does a text
      so long that its size field has wrapped around. */
  lemma TextRoundTrip(o: Order, text: bytes, ptype: u32)
    requires ptype == COMMAND_PACKET || ptype == XML_PACKET
    ensures var p := DecodePacket(o, EncodeString(o, text, ptype));
      p.Some? && p.value.ptype == ptype && TextOf(p.value) == Trim(text) && (TextOf(p.value) == text <==> Bare(text))
    ensures forall i: nat, r: bytes, j: nat :: text == Zeros(i) + r + Zeros(j) && Bare(r) ==>
      TextOf(DecodePacket(o, EncodeString(o, text, ptype)).value) == r
  {
    hide Get32, PutOrder32, EncodeString, Trim;
    TextHeader(o, text, ptype);
    TerminatorTrimmed(text);
    forall i: nat, r: bytes, j: nat | text == Zeros(i) + r + Zeros(j) && Bare(r) ensures Trim(text) == r {
      TrimBetween(i, r, j);
    }
  }

  /** What arrives of a stream command without spaces inside says exactly what was asked for, if and only if the
      channel list of the last component does not end with a NUL. */
  lemma RequestArrives(o: Order, r: StreamTexts.Request)
    requires StreamTexts.WellFormedRequest(r) && StreamTexts.SpaceFree(r)
    ensures var p := DecodePacket(o, EncodeString(o, StreamTexts.StreamCommand(r), COMMAND_PACKET));
      var c := r.components[|r.components| - 1];
      p.Some? && (StreamTexts.Parse(p.value.commandResponse) == Some(r) <==>
        (c.channels != [] ==> c.channels[|c.channels| - 1] != 0))
  {
    hide StreamTexts.Parse, StreamTexts.StreamCommand, DecodePacket, EncodeString, Trim;
    var text := StreamTexts.StreamCommand(r);
    StreamTexts.CommandEnds(r);
    TextRoundTrip(o, text, COMMAND_PACKET);
    TerminatorTrimmed(text);
    TrimSplit(text);
    StreamTexts.CommandReads(r);
    if StreamTexts.Parse(Trim(text)) == Some(r) {
      StreamTexts.ParsedEnds(Trim(text));
    }
  }
}
