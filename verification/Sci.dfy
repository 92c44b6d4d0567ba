/** SCI telegrams as bytes: 43 bytes of protocol, type and padded names, then up
    to 85 bytes of payload. */
module Sci {
  import opened ByteOrder
  import opened Wrappers

  const MAX_LENGTH := 128
  const HEADER_LENGTH := 43
  const NAME_LENGTH := 20
  const PADDING: byte := 0x5F
  const PROTOCOL_P: byte := 0x40
  const PROTOCOL_LS: byte := 0x30

  type Name = s: seq<byte> | |s| == NAME_LENGTH witness seq(NAME_LENGTH, _ => 0)

  /** payload holds the used bytes of the payload field. */
  datatype Telegram = Telegram(protocol: byte, type0: byte, type1: byte, sender: Name, receiver: Name,
    payload: seq<byte>)

  predicate Valid(t: Telegram) {
    (t.protocol == PROTOCOL_P || t.protocol == PROTOCOL_LS) && |t.payload| <= MAX_LENGTH - HEADER_LENGTH
  }

  function Encode(t: Telegram): seq<byte> {
    [t.protocol, t.type0, t.type1] + t.sender + t.receiver + t.payload
  }

  function Decode(b: seq<byte>): Option<Telegram> {
    if |b| > MAX_LENGTH || |b| < HEADER_LENGTH then None
    else if b[0] != PROTOCOL_P && b[0] != PROTOCOL_LS then None
    else Some(Telegram(b[0], b[1], b[2], b[3..23], b[23..43], b[43..]))
  }

  lemma Layout(t: Telegram)
    ensures var b := Encode(t);
            && |b| == HEADER_LENGTH + |t.payload|
            && b[0] == t.protocol && b[1] == t.type0 && b[2] == t.type1
            && b[3..23] == t.sender && b[23..43] == t.receiver && b[43..] == t.payload
  {
  }

  /** A telegram comes back exactly when its protocol is known and its payload
      no longer than 85 bytes; any other is refused. */
  lemma DecodeEncodeIff(t: Telegram)
    ensures Decode(Encode(t)) == Some(t) <==> Valid(t)
    ensures !Valid(t) ==> Decode(Encode(t)) == None
  {
    Layout(t);
  }

  /** Every telegram accepted is the encoding of what was read from it. */
  lemma EncodeDecode(b: seq<byte>)
    requires Decode(b).Some?
    ensures Encode(Decode(b).value) == b && Valid(Decode(b).value)
  {
    assert b == [b[0], b[1], b[2]] + b[3..23] + b[23..43] + b[43..];
  }

  /* ----- names ----- */

  /** Where the fields of an accepted telegram are, and which bytes are one: 43
      to 128 of them, of protocol 0x40 or 0x30. */
  lemma FieldsOnWire(b: seq<byte>)
    ensures Decode(b).Some? <==> 43 <= |b| <= 128 && (b[0] == 0x40 || b[0] == 0x30)
    ensures Decode(b).Some? ==>
              var t := Decode(b).value;
              && b[0] == t.protocol && b[1..3] == [t.type0, t.type1]
              && b[3..23] == t.sender && b[23..43] == t.receiver && b[43..] == t.payload
  {
  }

  /** The name field: the name, padded with underscores. */
  function NameField(name: seq<byte>): Name
    requires |name| <= NAME_LENGTH
  {
    name + seq(NAME_LENGTH - |name|, _ => PADDING)
  }

  function Stripped(name: seq<byte>): seq<byte> {
    if name != [] && name[|name| - 1] == PADDING then Stripped(name[..|name| - 1]) else name
  }

  lemma {:induction false} StrippedPadded(name: seq<byte>, n: nat)
    ensures Stripped(name + seq(n, _ => PADDING)) == Stripped(name)
  {
    var padded := name + seq(n, _ => PADDING);
    if n == 0 {
      assert padded == name;
    } else {
      assert padded[..|padded| - 1] == name + seq(n - 1, _ => PADDING);
      StrippedPadded(name, n - 1);
    }
  }

  lemma {:induction false} StrippedField(name: seq<byte>)
    requires |name| <= NAME_LENGTH
    ensures |Stripped(name)| <= |name| && NameField(Stripped(name)) == NameField(name)
    decreases |name|
  {
    if name != [] && name[|name| - 1] == PADDING {
      StrippedField(name[..|name| - 1]);
      assert NameField(name[..|name| - 1]) == NameField(name);
    }
  }

  /** Two names share a field exactly when they differ only in trailing
      underscores: the padding is not marked. */
  lemma SameFieldIff(a: seq<byte>, b: seq<byte>)
    requires |a| <= NAME_LENGTH && |b| <= NAME_LENGTH
    ensures NameField(a) == NameField(b) <==> Stripped(a) == Stripped(b)
  {
    StrippedPadded(a, NAME_LENGTH - |a|);
    StrippedPadded(b, NAME_LENGTH - |b|);
    StrippedField(a);
    StrippedField(b);
  }

  /* ----- the program ----- */

  /** memset of the field to the padding, then the copy of the name. */
  method SetName(name: seq<byte>, field: array<byte>)
    requires |name| <= NAME_LENGTH == field.Length
    modifies field
    ensures field[..] == NameField(name)
  {
    for i := 0 to NAME_LENGTH
      invariant forall k :: 0 <= k < i ==> field[k] == PADDING
    {
      field[i] := PADDING;
    }
    PutBytes(name, field, 0);
  }

  /** sci_encode_telegram. */
  method EncodeTelegram(t: Telegram) returns (result: array<byte>)
    ensures fresh(result) && result[..] == Encode(t)
  {
    result := new byte[HEADER_LENGTH + |t.payload|];
    result[0] := t.protocol;
    var messageType := [t.type0, t.type1];
    PutBytes(messageType, result, 1);
    assert result[1] == messageType[0] && result[2] == messageType[1];
    PutBytes(t.sender, result, 3);
    PutBytes(t.receiver, result, 23);
    if |t.payload| > 0 {
      PutBytes(t.payload, result, 43);
    }
    Layout(t);
    assert result[..3] == [t.protocol, t.type0, t.type1];
    assert result[3..23] == t.sender && result[23..43] == t.receiver && result[43..] == t.payload;
    assert result[..] == result[..3] + result[3..23] + result[23..43] + result[43..];
  }

  /** sci_decode_telegram. */
  method DecodeTelegram(data: seq<byte>) returns (t: Option<Telegram>)
    ensures t == Decode(data)
  {
    if |data| > MAX_LENGTH || |data| < HEADER_LENGTH {
      return None;
    }
    if !(data[0] == PROTOCOL_P || data[0] == PROTOCOL_LS) {
      return None;
    }
    var payloadSize := |data| - HEADER_LENGTH;
    var payload := [];
    if payloadSize > 0 {
      payload := data[43..];
    }
    assert payload == data[43..];
    return Some(Telegram(data[0], data[1], data[2], data[3..23], data[23..43], payload));
  }
}
