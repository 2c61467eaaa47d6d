/** Packets as objects that own everything decoded into them. */
module Packets {
  import opened Wire
  import opened Frames
  import opened PacketValues
  import opened DataPackets

  class FilePacket {
    var size: u32
    var ftype: u32
    var file: array<u8>

    constructor ()
      ensures size == ftype == 0 && fresh(file) && file.Length == 0
    {
      size, ftype := 0, 0;
      file := new u8[0];
    }

    function Value(): FileValue
      reads this, file
    {
      FileValue(ftype, size, file[..])
    }

    /** The payload of a file packet is the file itself, copied out. */
    method UnmarshalBinary(source: array<u8>, lo: nat, hi: nat)
      requires lo <= hi <= source.Length
      modifies this
      ensures fresh(file) && Value() == FileValue(old(ftype), (hi - lo) % 0x1_0000_0000, source[lo..hi])
    {
      size := (hi - lo) % 0x1_0000_0000;
      file := CopyOf(source, lo, hi);
    }
  }

  class Packet {
    var ptype: u32
    var size: u32
    var errorResponse: bytes
    var commandResponse: bytes
    var xmlResponse: bytes
    var event: u8
    const data: DataPacket
    const file: FilePacket
    var order: Option<Order>

    ghost predicate Valid()
      reads this, data, file, data.Repr
    {
      data.Valid() && this !in data.Repr && file !in data.Repr
    }

    /** Every object the packet consists of, except itself. */
    ghost function Footprint(): set<object>
      reads data, file
    {
      {data, file, file.file} + data.Repr
    }

    ghost function Value(): PacketValue
      reads this, data, file, data.Repr, Footprint()
      requires Valid()
    {
      PacketValue(ptype, size, errorResponse, commandResponse, xmlResponse, event, data.Value(), file.Value())
    }

    constructor (ptype: u32, order: Option<Order>)
      ensures Valid() && fresh(Footprint()) && Value() == Blank(ptype) && this.order == order
    {
      this.ptype, this.order := ptype, order;
      size, event := 0, 0;
      errorResponse, commandResponse, xmlResponse := [], [], [];
      data := new DataPacket();
      file := new FilePacket();
      new;
      assert file.Value() == FileValue(0, 0, []);
    }

    /** Decodes a whole packet, header included. */
    method UnmarshalBinary(source: array<u8>, lo: nat, hi: nat) returns (ok: bool)
      requires lo <= hi <= source.Length && Valid()
      modifies this, data, file
      ensures order == old(order) && (ok ==> Valid() && fresh(Footprint() - old(Footprint())))
      ensures DecodeInto(Effective(order), old(Value()), source[lo..hi]) == if ok then Some(Value()) else None
    {
      if hi - lo < PACKET_HEADER_SIZE {
        return false;
      }
      ghost var was, b := Value(), source[lo..hi];
      UnmarshalHeader(source, lo, hi);
      var from := lo + PACKET_HEADER_SIZE;
      ghost var o, headed, payload := Effective(order), Value(), source[from..hi];
      assert payload == b[PACKET_HEADER_SIZE..];
      ok := UnmarshalPayload(source, from, hi);
      IntoPayload(o, was, b, headed, payload, if ok then Some(Value()) else None);
      assert b == source[lo..hi];
    }

    method UnmarshalHeader(source: array<u8>, lo: nat, hi: nat)
      requires lo <= hi <= source.Length && Valid() && hi - lo >= PACKET_HEADER_SIZE
      modifies this
      ensures Valid() && Footprint() == old(Footprint()) && order == old(order)
      ensures var o, b := Effective(order), source[lo..hi];
        Value() == old(Value()).(size := Get32(o, b, 0), ptype := Get32(o, b, 4))
    {
      size := ReadOrder32(Effective(order), source, lo, hi, 0);
      ptype := ReadOrder32(Effective(order), source, lo, hi, 4);
      assert data.Value() == old(data.Value()) && file.Value() == old(file.Value());
    }

    method UnmarshalPayload(source: array<u8>, lo: nat, hi: nat) returns (ok: bool)
      requires lo <= hi <= source.Length && Valid()
      modifies this, data, file
      ensures order == old(order) && (ok ==> Valid() && fresh(Footprint() - old(Footprint())))
      ensures WithPayload(Effective(order), old(Value()), source[lo..hi]) == if ok then Some(Value()) else None
    {
      hide DecodeFrame, Trim;
      if ptype == DATA_PACKET {
        data.order := Some(Effective(order));
        ok := data.UnmarshalBinary(source, lo, hi);
        return ok;
      }
      if ptype == C3D_FILE_PACKET || ptype == QTM_FILE_PACKET {
        file.ftype := ptype;
        file.UnmarshalBinary(source, lo, hi);
        return true;
      }
      if ptype == ERROR_PACKET {
        errorResponse := Trim(source[lo..hi]);
      } else if ptype == COMMAND_PACKET {
        commandResponse := Trim(source[lo..hi]);
      } else if ptype == XML_PACKET {
        xmlResponse := Trim(source[lo..hi]);
      } else if ptype == EVENT_PACKET {
        if hi - lo < 1 {
          return false;
        }
        event := source[lo];
      }
      assert data.Value() == old(data.Value());
      assert file.Value() == old(file.Value());
      return true;
    }
  }
}
