/** kernel_session.go: signing, packing and unpacking of the frames exchanged with a kernel. */
module Wire {
  import opened Options
  import opened Hex

  datatype MessageHeader = MessageHeader(
    msgId: string, msgType: string, username: string, session: string, date: string, protocolVersion: string)

  datatype WireError =
    | SignatureNotHex | SignatureMismatch | BadHeader | BadParentHeader | BadMetadata | BadContent

  /** `J` is whatever JSON value metadata and content hold. */
  datatype Message<J> = Message(
    header: MessageHeader, parentHeader: MessageHeader, metadata: J, content: J,
    error: Option<WireError>, channel: string)

  /** The foreign functions the session uses: HMAC-SHA256 over a key and the bytes fed so far, and
      JSON. Unpacking gives the target's value afterwards and whether it succeeded. */
  datatype Library<!J> = Library(
    mac: (bytes, bytes) -> bytes,
    packHeader: MessageHeader -> bytes, unpackHeader: bytes -> (MessageHeader, bool),
    pack: J -> bytes, unpack: bytes -> (J, bool),
    noValue: J)

  const NO_HEADER := MessageHeader("", "", "", "", "", "")

  /** The bytes of "<IDS|MSG>". */
  const DELIM: bytes := [60, 73, 68, 83, 124, 77, 83, 71, 62]

  lemma DelimiterText()
    ensures |DELIM| == |"<IDS|MSG>"| && forall i :: 0 <= i < |DELIM| ==> DELIM[i] as char == "<IDS|MSG>"[i]
  {
    forall i | 0 <= i < 9
      ensures DELIM[i] as char == "<IDS|MSG>"[i]
    {
      assert i == 0 || i == 1 || i == 2 || i == 3 || i == 4 || i == 5 || i == 6 || i == 7 || i == 8;
    }
  }

  function Flatten(frames: seq<bytes>): bytes {
    if frames == [] then [] else Flatten(frames[..|frames| - 1]) + frames[|frames| - 1]
  }

  /** What is hashed: the bytes of all frames, in order. */
  lemma {:induction false} HashedInOrder(a: seq<bytes>, b: seq<bytes>)
    ensures Flatten([]) == []
    ensures forall f: bytes :: Flatten([f]) == f
    ensures Flatten(a + b) == Flatten(a) + Flatten(b)
    decreases |b|
  {
    forall f: bytes
      ensures Flatten([f]) == f
    {
      assert [f][..0] == [];
    }
    if b == [] {
      assert a + b == a;
    } else {
      var n := |b| - 1;
      assert (a + b)[..|a + b| - 1] == a + b[..n];
      HashedInOrder(a, b[..n]);
    }
  }

  lemma FourHashed(payload: seq<bytes>)
    requires |payload| == 4
    ensures Flatten(payload) == payload[0] + payload[1] + payload[2] + payload[3]
  {
    HashedInOrder(payload[..1], payload[1..2]);
    HashedInOrder(payload[..2], payload[2..3]);
    HashedInOrder(payload[..3], payload[3..]);
    assert payload[..1] == [payload[0]] && payload[1..2] == [payload[1]] && payload[2..3] == [payload[2]] && payload[3..] == [payload[3]];
    assert payload[..2] == payload[..1] + payload[1..2] && payload[..3] == payload[..2] + payload[2..3];
    assert payload == payload[..3] + payload[3..];
  }

  /** Index of the first delimiter, or the number of frames. */
  function DelimiterAt(frames: seq<bytes>): (i: nat)
    ensures i <= |frames|
    ensures DELIM !in frames[..i]
    ensures i < |frames| ==> frames[i] == DELIM
  {
    if frames == [] || frames[0] == DELIM then 0
    else
      assert forall j: nat :: j <= |frames[1..]| ==> frames[..j + 1] == [frames[0]] + frames[1..][..j];
      1 + DelimiterAt(frames[1..])
  }

  function Sign<J>(lib: Library<J>, key: bytes, frames: seq<bytes>): bytes {
    Encode(lib.mac(key, Flatten(frames)))
  }

  /** The payload as the code packs it: the header takes the parent header's place too. */
  function Payload<J>(lib: Library<J>, msg: Message<J>): seq<bytes> {
    [lib.packHeader(msg.header), lib.packHeader(msg.header), lib.pack(msg.metadata), lib.pack(msg.content)]
  }

  function Serialized<J>(lib: Library<J>, key: bytes, msg: Message<J>): seq<bytes> {
    [DELIM, Sign(lib, key, Payload(lib, msg))] + Payload(lib, msg)
  }

  datatype Outcome<J> = Panicked | Returned(msg: Message<J>)

  function Failure<J>(lib: Library<J>, e: WireError): Outcome<J> {
    Returned(Message(NO_HEADER, NO_HEADER, lib.noValue, lib.noValue, Some(e), ""))
  }

  /** Unpacks the four payload frames; the last failure is the one reported. */
  function Unpacked<J>(lib: Library<J>, payload: seq<bytes>, channel: string): Message<J>
    requires |payload| == 4
  {
    var (h, hOk) := lib.unpackHeader(payload[0]);
    var (p, pOk) := lib.unpackHeader(payload[1]);
    var (m, mOk) := lib.unpack(payload[2]);
    var (c, cOk) := lib.unpack(payload[3]);
    Message(h, p, m, c,
            if !cOk then Some(BadContent) else if !mOk then Some(BadMetadata)
            else if !pOk then Some(BadParentHeader) else if !hOk then Some(BadHeader) else None,
            channel)
  }

  /** Does the signature frame decode to the HMAC of what is hashed? Without a key it is not looked at. */
  function CheckSignature<J>(lib: Library<J>, key: bytes, signature: bytes, hashed: seq<bytes>): (e: Option<WireError>) {
    var given := Decode(signature);
    if key == [] then None
    else if given.None? then Some(SignatureNotHex)
    else if lib.mac(key, Flatten(hashed)) != given.value then Some(SignatureMismatch)
    else None
  }

  /** The outcome for a frame list, and for the elements `spare` that the array behind the Go slice holds
      after it. Hashing slices up to the capacity, so a list that is too short may still be refused for its
      signature; unpacking indexes up to the length, and panics. */
  function Deserialized<J>(lib: Library<J>, key: bytes, frames: seq<bytes>, spare: seq<bytes>, channel: string): Outcome<J> {
    var i, all := DelimiterAt(frames), frames + spare;
    if |frames| <= i + 1 || (key != [] && |all| < i + 6) then Panicked
    else
      var e := CheckSignature(lib, key, frames[i + 1], if key == [] then [] else all[i + 2..i + 6]);
      if e.Some? then Failure(lib, e.value)
      else if |frames| < i + 6 then Panicked
      else Returned(Unpacked(lib, frames[i + 2..i + 6], channel))
  }

  // ---------- The code ----------

  /** A running HMAC. */
  class Hash {
    const key: bytes
    const mac: (bytes, bytes) -> bytes
    var written: bytes

    constructor (mac: (bytes, bytes) -> bytes, key: bytes)
      ensures this.mac == mac && this.key == key && written == []
    {
      this.mac, this.key, written := mac, key, [];
    }

    method Write(data: bytes)
      modifies this
      ensures written == old(written) + data
    {
      written := written + data;
    }

    method Sum() returns (digest: bytes)
      ensures digest == mac(key, written)
    {
      digest := mac(key, written);
    }
  }

  class KernelSession<!J> {
    const lib: Library<J>
    var key: bytes

    constructor (lib: Library<J>, key: bytes)
      ensures this.lib == lib && this.key == key
    {
      this.lib, this.key := lib, key;
    }

    method Feed(hash: Hash, frames: seq<bytes>)
      requires hash.written == []
      modifies hash
      ensures hash.written == Flatten(frames)
    {
      for n := 0 to |frames|
        invariant hash.written == Flatten(frames[..n])
      {
        hash.Write(frames[n]);
        assert frames[..n + 1][..n] == frames[..n];
      }
      assert frames[..|frames|] == frames;
    }

    method SignFrames(msgList: seq<bytes>) returns (signature: bytes)
      ensures signature == Sign(lib, key, msgList)
    {
      var hash := new Hash(lib.mac, key);
      Feed(hash, msgList);
      var digest := hash.Sum();
      signature := Encode(digest);
    }

    method Serialize(msg: Message<J>) returns (toSend: seq<bytes>)
      ensures toSend == Serialized(lib, key, msg)
      ensures |toSend| == 6 && toSend[0] == DELIM
      ensures toSend[1] == Encode(lib.mac(key, toSend[2] + toSend[3] + toSend[4] + toSend[5]))
      ensures toSend[2] == toSend[3] == lib.packHeader(msg.header)
      ensures toSend[4] == lib.pack(msg.metadata) && toSend[5] == lib.pack(msg.content)
    {
      var realMessage := [lib.packHeader(msg.header), lib.packHeader(msg.header), lib.pack(msg.metadata), lib.pack(msg.content)];
      var signature := SignFrames(realMessage);
      FourHashed(realMessage);
      toSend := [];
      toSend := toSend + [DELIM];
      toSend := toSend + [signature];
      toSend := toSend + realMessage;
    }

    method Deserialize(frames: seq<bytes>, spare: seq<bytes>, channel: string) returns (outcome: Outcome<J>)
      ensures outcome == Deserialized(lib, key, frames, spare, channel)
      ensures var i := DelimiterAt(frames);
        |frames| >= i + 6 ==>
          if key != [] && Lower(frames[i + 1]) != Encode(lib.mac(key, frames[i + 2] + frames[i + 3] + frames[i + 4] + frames[i + 5]))
          then Refused(lib, outcome, frames[i + 1])
          else GivesBack(lib, outcome, frames[i + 2], frames[i + 3], frames[i + 4], frames[i + 5], channel)
    {
      if |frames| >= DelimiterAt(frames) + 6 {
        CompleteMessage(lib, key, frames, spare, channel);
      }
      var i := 0;
      while i < |frames| && frames[i] != DELIM
        invariant 0 <= i <= |frames|
        invariant DelimiterAt(frames) == i + DelimiterAt(frames[i..])
      {
        i := i + 1;
      }
      if i == |frames| {
        return Panicked;
      }
      if |key| != 0 {
        var mac := new Hash(lib.mac, key);
        if |frames + spare| < i + 6 {
          return Panicked;
        }
        Feed(mac, (frames + spare)[i + 2..i + 6]);
        if |frames| <= i + 1 {
          return Panicked;
        }
        var signature := Decode(frames[i + 1]);
        if signature.None? {
          return Failure(lib, SignatureNotHex);
        }
        var digest := mac.Sum();
        if digest != signature.value {
          return Failure(lib, SignatureMismatch);
        }
      }
      if |frames| < i + 6 {
        return Panicked;
      }
      assert frames[i + 2..i + 6] == [frames[i + 2], frames[i + 3], frames[i + 4], frames[i + 5]];
      var response := Unmarshal(frames[i + 2], frames[i + 3], frames[i + 4], frames[i + 5]);
      outcome := Returned(response.(channel := channel));
    }

    /** The end of `Deserialize`: every frame is unpacked, and a later failure replaces an earlier one. */
    method Unmarshal(header: bytes, parent: bytes, metadata: bytes, content: bytes) returns (response: Message<J>)
      ensures response == Unpacked(lib, [header, parent, metadata, content], "")
    {
      response := Message(NO_HEADER, NO_HEADER, lib.noValue, lib.noValue, None, "");
      var (h, hOk) := lib.unpackHeader(header);
      response := response.(header := h);
      if !hOk {
        response := response.(error := Some(BadHeader));
      }
      var (p, pOk) := lib.unpackHeader(parent);
      response := response.(parentHeader := p);
      if !pOk {
        response := response.(error := Some(BadParentHeader));
      }
      var (m, mOk) := lib.unpack(metadata);
      response := response.(metadata := m);
      if !mOk {
        response := response.(error := Some(BadMetadata));
      }
      var (c, cOk) := lib.unpack(content);
      response := response.(content := c);
      if !cOk {
        response := response.(error := Some(BadContent));
      }
    }
  }

  // ---------- What the framing promises ----------

  lemma DelimiterAfterPrefix(prefix: seq<bytes>, rest: seq<bytes>)
    requires DELIM !in prefix
    ensures DelimiterAt(prefix + ([DELIM] + rest)) == |prefix|
  {
    var frames := prefix + ([DELIM] + rest);
    assert frames[..|prefix|] == prefix && frames[|prefix|] == DELIM;
    assert forall j :: |prefix| < j <= |frames| ==> frames[..j][|prefix|] == DELIM;
  }

  /** The packed values of `msg` unpack to themselves. */
  ghost predicate Packable<J>(lib: Library<J>, msg: Message<J>) {
    && lib.unpackHeader(lib.packHeader(msg.header)) == (msg.header, true)
    && lib.unpack(lib.pack(msg.metadata)) == (msg.metadata, true)
    && lib.unpack(lib.pack(msg.content)) == (msg.content, true)
  }

  /** A complete message: all six frames are in the list, so nothing behind it matters. */
  lemma Complete<J>(lib: Library<J>, key: bytes, prefix: seq<bytes>, signature: bytes, payload: seq<bytes>, buffers: seq<bytes>,
                    spare: seq<bytes>, channel: string)
    requires DELIM !in prefix && |payload| == 4
    ensures var e := CheckSignature(lib, key, signature, payload);
      Deserialized(lib, key, prefix + ([DELIM] + ([signature] + (payload + buffers))), spare, channel) ==
        if e.Some? then Failure(lib, e.value) else Returned(Unpacked(lib, payload, channel))
  {
    var rest := [signature] + (payload + buffers);
    var frames := prefix + ([DELIM] + rest);
    DelimiterAfterPrefix(prefix, rest);
    PayloadFrames(prefix, signature, payload, buffers);
    SliceBefore(frames, spare, |prefix| + 2, |prefix| + 6);
  }

  lemma PayloadFrames(prefix: seq<bytes>, signature: bytes, payload: seq<bytes>, buffers: seq<bytes>)
    requires |payload| == 4
    ensures var frames, i := prefix + ([DELIM] + ([signature] + (payload + buffers))), |prefix|;
      |frames| >= i + 6 && frames[i + 1] == signature && frames[i + 2..i + 6] == payload
  {
  }

  lemma SliceBefore(frames: seq<bytes>, more: seq<bytes>, low: nat, high: nat)
    requires low <= high <= |frames|
    ensures (frames + more)[low..high] == frames[low..high]
  {
  }

  /** Whatever identity frames come before and buffers after, a serialized message is accepted and
      gives back its header, metadata and content; its header also comes back as parent header. */
  lemma SerializeThenDeserialize<J>(lib: Library<J>, key: bytes, msg: Message<J>, identities: seq<bytes>, buffers: seq<bytes>,
                                    spare: seq<bytes>, channel: string)
    requires DELIM !in identities && Packable(lib, msg)
    ensures Deserialized(lib, key, identities + Serialized(lib, key, msg) + buffers, spare, channel) ==
            Returned(Message(msg.header, msg.header, msg.metadata, msg.content, None, channel))
  {
    var payload := Payload(lib, msg);
    var signature := Sign(lib, key, payload);
    assert identities + Serialized(lib, key, msg) + buffers == identities + ([DELIM] + ([signature] + (payload + buffers)));
    Complete(lib, key, identities, signature, payload, buffers, spare, channel);
    EncodeThenDecode(lib.mac(key, Flatten(payload)));
  }

  /** So the parent header survives exactly when it was the header. */
  lemma ParentHeaderSurvives<J>(lib: Library<J>, key: bytes, msg: Message<J>, channel: string)
    requires Packable(lib, msg)
    ensures Deserialized(lib, key, Serialized(lib, key, msg), [], channel) == Returned(msg.(error := None, channel := channel))
            <==> msg.parentHeader == msg.header
  {
    SerializeThenDeserialize(lib, key, msg, [], [], [], channel);
    assert [] + Serialized(lib, key, msg) + [] == Serialized(lib, key, msg);
  }

  predicate Rejected<J>(o: Outcome<J>) {
    o.Returned? && (o.msg.error == Some(SignatureNotHex) || o.msg.error == Some(SignatureMismatch))
  }

  lemma CheckedBySignature<J>(lib: Library<J>, key: bytes, signature: bytes, payload: seq<bytes>)
    requires key != []
    ensures CheckSignature(lib, key, signature, payload).None? <==> Lower(signature) == Sign(lib, key, payload)
  {
    DecodesTo(signature, lib.mac(key, Flatten(payload)));
  }

  /** The outcome for a list that holds all six frames. */
  lemma CompleteOutcome<J>(lib: Library<J>, key: bytes, frames: seq<bytes>, spare: seq<bytes>, channel: string)
    requires |frames| >= DelimiterAt(frames) + 6
    ensures var i := DelimiterAt(frames);
      var e := CheckSignature(lib, key, frames[i + 1], frames[i + 2..i + 6]);
      Deserialized(lib, key, frames, spare, channel) ==
        if e.Some? then Failure(lib, e.value) else Returned(Unpacked(lib, frames[i + 2..i + 6], channel))
  {
    var i := DelimiterAt(frames);
    var payload := frames[i + 2..i + 6];
    SliceBefore(frames, spare, i + 2, i + 6);
    var e := CheckSignature(lib, key, frames[i + 1], payload);
    assert key == [] ==> e.None?;
  }

  /** The outcome is a message with the values of the four frames, and with the error of the last one
      that could not be unpacked. */
  ghost predicate GivesBack<J>(lib: Library<J>, o: Outcome<J>, header: bytes, parent: bytes, metadata: bytes, content: bytes,
                               channel: string) {
    && o.Returned? && o.msg.channel == channel
    && o.msg.header == lib.unpackHeader(header).0 && o.msg.parentHeader == lib.unpackHeader(parent).0
    && o.msg.metadata == lib.unpack(metadata).0 && o.msg.content == lib.unpack(content).0
    && (o.msg.error == Some(BadContent) <==> !lib.unpack(content).1)
    && (o.msg.error == Some(BadMetadata) <==> lib.unpack(content).1 && !lib.unpack(metadata).1)
    && (o.msg.error == Some(BadParentHeader) <==> lib.unpack(content).1 && lib.unpack(metadata).1 && !lib.unpackHeader(parent).1)
    && (o.msg.error == Some(BadHeader) <==>
        lib.unpack(content).1 && lib.unpack(metadata).1 && lib.unpackHeader(parent).1 && !lib.unpackHeader(header).1)
    && !Rejected(o)
  }

  /** The outcome holds nothing but the error: a signature that is no hexadecimal text, or a wrong one. */
  ghost predicate Refused<J>(lib: Library<J>, o: Outcome<J>, signature: bytes) {
    && Rejected(o) && o.msg.header == o.msg.parentHeader == MessageHeader("", "", "", "", "", "")
    && o.msg.metadata == o.msg.content == lib.noValue && o.msg.channel == ""
    && (o.msg.error == Some(SignatureNotHex) <==> Decode(signature).None?)
  }

  lemma UnpackedGivesBack<J>(lib: Library<J>, payload: seq<bytes>, channel: string)
    requires |payload| == 4
    ensures GivesBack(lib, Returned(Unpacked(lib, payload, channel)), payload[0], payload[1], payload[2], payload[3], channel)
  {
  }

  /** A complete list is refused exactly when there is a key and the signature is not the HMAC of the four
      frames, one after the other, up to the case of its letters; else it gives back what they hold. */
  lemma CompleteMessage<J>(lib: Library<J>, key: bytes, frames: seq<bytes>, spare: seq<bytes>, channel: string)
    requires |frames| >= DelimiterAt(frames) + 6
    ensures var i, o := DelimiterAt(frames), Deserialized(lib, key, frames, spare, channel);
      if key != [] && Lower(frames[i + 1]) != Encode(lib.mac(key, frames[i + 2] + frames[i + 3] + frames[i + 4] + frames[i + 5]))
      then Refused(lib, o, frames[i + 1])
      else GivesBack(lib, o, frames[i + 2], frames[i + 3], frames[i + 4], frames[i + 5], channel)
  {
    var i := DelimiterAt(frames);
    CompleteOutcome(lib, key, frames, spare, channel);
    UnpackedGivesBack(lib, frames[i + 2..i + 6], channel);
    FourHashed(frames[i + 2..i + 6]);
    if key != [] {
      CheckedBySignature(lib, key, frames[i + 1], frames[i + 2..i + 6]);
    }
  }

  /** With a key, a message passes the check exactly when its signature is the one `sign` makes for
      the four payload frames, up to the case of its letters. */
  lemma AcceptedIffSigned<J>(lib: Library<J>, key: bytes, frames: seq<bytes>, spare: seq<bytes>, channel: string)
    requires key != [] && |frames| >= DelimiterAt(frames) + 6
    ensures var i := DelimiterAt(frames);
      !Rejected(Deserialized(lib, key, frames, spare, channel)) <==>
      Lower(frames[i + 1]) == Encode(lib.mac(key, frames[i + 2] + frames[i + 3] + frames[i + 4] + frames[i + 5]))
  {
    CompleteMessage(lib, key, frames, spare, channel);
  }

  /** A list too short for a message never yields one: it panics, unless a key is set, there is room for
      the payload behind it, and its signature is not that of what lies there. */
  lemma ShortListFails<J>(lib: Library<J>, key: bytes, frames: seq<bytes>, spare: seq<bytes>, channel: string)
    requires |frames| < DelimiterAt(frames) + 6
    ensures var i, all := DelimiterAt(frames), frames + spare;
      var o := Deserialized(lib, key, frames, spare, channel);
      && (o.Panicked? || Rejected(o))
      && (Rejected(o) <==>
          key != [] && i + 1 < |frames| && i + 6 <= |all| &&
          Lower(frames[i + 1]) != Encode(lib.mac(key, all[i + 2] + all[i + 3] + all[i + 4] + all[i + 5])))
  {
    var i, all := DelimiterAt(frames), frames + spare;
    if key != [] && i + 1 < |frames| && i + 6 <= |all| {
      CheckedBySignature(lib, key, frames[i + 1], all[i + 2..i + 6]);
      FourHashed(all[i + 2..i + 6]);
    }
  }

  lemma DelimiterBeforeBuffers(frames: seq<bytes>, buffers: seq<bytes>)
    requires DelimiterAt(frames) < |frames|
    ensures DelimiterAt(frames + buffers) == DelimiterAt(frames)
  {
    var i := DelimiterAt(frames);
    assert frames + buffers == frames[..i] + ([DELIM] + (frames[i + 1..] + buffers));
    DelimiterAfterPrefix(frames[..i], frames[i + 1..] + buffers);
  }

  /** Extra buffer frames never change the outcome of a complete message. */
  lemma BuffersIgnored<J>(lib: Library<J>, key: bytes, frames: seq<bytes>, buffers: seq<bytes>, spare: seq<bytes>, channel: string)
    requires |frames| >= DelimiterAt(frames) + 6
    ensures Deserialized(lib, key, frames + buffers, spare, channel) == Deserialized(lib, key, frames, [], channel)
  {
    SelectedBeforeBuffers(frames, buffers);
    CompleteOutcome(lib, key, frames + buffers, spare, channel);
    CompleteOutcome(lib, key, frames, [], channel);
  }

  lemma SelectedBeforeBuffers(frames: seq<bytes>, buffers: seq<bytes>)
    requires |frames| >= DelimiterAt(frames) + 6
    ensures var i, all := DelimiterAt(frames), frames + buffers;
      |all| >= |frames| && DelimiterAt(all) == i && all[i + 1] == frames[i + 1] && all[i + 2..i + 6] == frames[i + 2..i + 6]
  {
    var i := DelimiterAt(frames);
    DelimiterBeforeBuffers(frames, buffers);
    SliceBefore(frames, buffers, i + 2, i + 6);
  }
}
