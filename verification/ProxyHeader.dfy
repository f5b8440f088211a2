/**
 The stripper of PROXY protocol version 2 headers (`Lb_transform` in lib/util.js:587-666). The bytes of
 a connection come in chunks; the header is taken off and what follows is pushed on.
*/
module ProxyHeader {
  import opened Decimal

  type Byte = x: int | 0 <= x < 256
  type Bytes = seq<Byte>

  const PREAMBLE: Bytes := [0x0D, 0x0A, 0x0D, 0x0A, 0x00, 0x0D, 0x0A, 0x51, 0x55, 0x49, 0x54, 0x0A]
  const MIN_HEADER := 16

  /** What the stream has announced. An `Error` verdict destroys it: it handles no more chunks. */
  datatype Verdict = Pending | Local | Parsed(remoteIp: string) | Malformed | UnsupportedFamily {
    predicate Destroyed() {
      Malformed? || UnsupportedFamily?
    }
  }

  datatype State = State(data: Bytes, finished: bool, verdict: Verdict, pushed: Bytes)

  const START := State([], false, Pending, [])

  /** A byte in a template string; past the end of the data it prints as `undefined`. */
  function ByteText(data: Bytes, i: nat): string {
    if i < |data| then ToText(data[i]) else "undefined"
  }

  function IpText(data: Bytes): string {
    ByteText(data, 16) + "." + ByteText(data, 17) + "." + ByteText(data, 18) + "." + ByteText(data, 19)
  }

  function PayloadLength(data: Bytes): nat
    requires |data| >= MIN_HEADER
  {
    var high: int := data[14];
    high * 256 + data[15]
  }

  function Total(data: Bytes): nat
    requires |data| >= MIN_HEADER
  {
    MIN_HEADER + PayloadLength(data)
  }

  predicate GoodHeader(data: Bytes)
    requires |data| >= MIN_HEADER
  {
    data[..12] == PREAMBLE && data[12] / 16 == 2 && PayloadLength(data) <= 512
  }

  // ----- The reference: one look at the whole stream ------------------------------------------------

  function Judge(all: Bytes): Verdict {
    if |all| < MIN_HEADER then Pending
    else if !GoodHeader(all) then Malformed
    else if |all| < Total(all) then Pending
    else if all[12] % 16 == 0 then Local
    else if all[13] == 0x11 then Parsed(IpText(all))
    else UnsupportedFamily
  }

  /** The bytes that are passed on when the header is that of a proxied IPv4 connection. */
  function Payload(all: Bytes): Bytes {
    if Judge(all).Parsed? then all[Total(all)..] else []
  }

  // ----- Chunk by chunk -----------------------------------------------------------------------------

  /** `_transform` (lib/util.js:618-665). */
  function Transform(st: State, chunk: Bytes): State {
    if st.verdict.Destroyed() then st
    else if st.finished then st.(pushed := st.pushed + chunk)
    else
      var data := st.data + chunk;
      if |data| < MIN_HEADER then st.(data := data)
      else if !GoodHeader(data) then st.(data := data, verdict := Malformed)
      else if |data| < Total(data) then st.(data := data)
      else if data[12] % 16 == 0 then st.(data := data, finished := true, verdict := Local)
      else if data[13] != 0x11 then st.(data := data, finished := true, verdict := UnsupportedFamily)
      else State([], true, Parsed(IpText(data)), st.pushed + data[Total(data)..])
  }

  function Run(st: State, chunks: seq<Bytes>): State
    decreases chunks
  {
    if chunks == [] then st else Run(Transform(st, chunks[0]), chunks[1..])
  }

  function Concat(chunks: seq<Bytes>): Bytes {
    if chunks == [] then [] else chunks[0] + Concat(chunks[1..])
  }

  // ----- Cutting does not matter --------------------------------------------------------------------

  /** The verdicts are of the same kind; the address may differ. */
  predicate SameKind(v: Verdict, w: Verdict) {
    match v
    case Pending => w.Pending?
    case Local => w.Local?
    case Parsed(_) => w.Parsed?
    case Malformed => w.Malformed?
    case UnsupportedFamily => w.UnsupportedFamily?
  }

  /** Whether the address lies in the header itself, and not in what happens to follow it. */
  predicate AddressInHeader(all: Bytes) {
    Judge(all).Parsed? ==> PayloadLength(all) >= 4
  }

  /** The state after the bytes `all`, however they were cut. */
  ghost predicate After(st: State, all: Bytes) {
    && SameKind(st.verdict, Judge(all))
    && st.finished == (st.verdict.Local? || st.verdict.Parsed? || st.verdict.UnsupportedFamily?)
    && (st.verdict.Pending? ==> st.data == all && st.pushed == [])
    && (AddressInHeader(all) ==> st.verdict == Judge(all))
    && (!st.verdict.Local? ==> st.pushed == Payload(all))
  }

  /** Once there is a verdict, more bytes change neither it nor where the payload starts. */
  lemma JudgeStays(all: Bytes, more: Bytes)
    requires !Judge(all).Pending?
    ensures SameKind(Judge(all + more), Judge(all))
    ensures AddressInHeader(all) <==> AddressInHeader(all + more)
    ensures AddressInHeader(all) ==> Judge(all + more) == Judge(all)
    ensures Payload(all + more) == if Judge(all).Parsed? then Payload(all) + more else []
  {
    assert (all + more)[..12] == all[..12];
    assert forall i :: 0 <= i < 16 ==> (all + more)[i] == all[i];
    if Judge(all).Parsed? {
      assert PayloadLength(all) >= 4 ==> forall i :: 16 <= i < 20 ==> (all + more)[i] == all[i];
      assert (all + more)[Total(all)..] == all[Total(all)..] + more;
    }
  }

  lemma TransformAfter(st: State, all: Bytes, chunk: Bytes)
    requires After(st, all)
    ensures After(Transform(st, chunk), all + chunk)
  {
    if !st.verdict.Pending? {
      JudgeStays(all, chunk);
    }
  }

  lemma {:induction false} RunAfter(st: State, all: Bytes, chunks: seq<Bytes>)
    requires After(st, all)
    ensures After(Run(st, chunks), all + Concat(chunks))
    decreases chunks
  {
    if chunks == [] {
      assert all + [] == all;
    } else {
      TransformAfter(st, all, chunks[0]);
      RunAfter(Transform(st, chunks[0]), all + chunks[0], chunks[1..]);
      assert all + chunks[0] + Concat(chunks[1..]) == all + Concat(chunks);
    }
  }

  /**
   For every stream and every way of cutting it: the verdict is of the same kind; a payload of four
   bytes or more makes the address the same too (`AddressExactly` says when else); and for a proxied IPv4
   connection exactly the bytes after the header are pushed. While the verdict is open, fewer than 16 + 512
   bytes are held.
  */
  lemma CuttingDoesNotMatter(chunks: seq<Bytes>)
    ensures var st, all := Run(START, chunks), Concat(chunks);
      && SameKind(st.verdict, Judge(all))
      && (AddressInHeader(all) ==> st.verdict == Judge(all))
      && (!st.verdict.Local? ==> st.pushed == Payload(all))
      && (st.verdict.Pending? ==> st.data == all && |st.data| < 16 + 512)
  {
    RunAfter(START, [], chunks);
    assert [] + Concat(chunks) == Concat(chunks);
    PendingIsShort(Concat(chunks));
    hide Judge;
  }

  lemma PendingIsShort(all: Bytes)
    ensures Judge(all).Pending? ==> |all| < 16 + 512
  {
  }

  lemma {:induction false} RunLocal(st: State, chunks: seq<Bytes>)
    requires st.finished && !st.verdict.Destroyed()
    ensures Run(st, chunks) == st.(pushed := st.pushed + Concat(chunks))
    decreases chunks
  {
    if chunks == [] {
      assert st.pushed + [] == st.pushed;
    } else {
      RunLocal(Transform(st, chunks[0]), chunks[1..]);
      assert st.pushed + chunks[0] + Concat(chunks[1..]) == st.pushed + Concat(chunks);
    }
  }

  /**
   A health check is where cutting matters: of the bytes after a LOCAL header, those in the chunk that
   completes the header are dropped and the chunks after it are pushed. Nothing is lost exactly when
   the header ends where that chunk does.
  */
  lemma LocalDropsRestOfChunk(before: seq<Bytes>, chunk: Bytes, rest: seq<Bytes>)
    requires Run(START, before).verdict.Pending?
    requires Judge(Concat(before) + chunk).Local?
    ensures Run(Run(START, before), [chunk] + rest).pushed == Concat(rest)
    ensures var all := Concat(before) + chunk;
      Run(Run(START, before), [chunk] + rest).pushed == (all + Concat(rest))[Total(all)..] <==> |all| == Total(all)
  {
    RunAfter(START, [], before);
    assert [] + Concat(before) == Concat(before);
    hide GoodHeader, PREAMBLE;
    var st, all := Run(START, before), Concat(before) + chunk;
    var st1 := Transform(st, chunk);
    assert st1.pushed == [] && st1.finished && st1.verdict == Local;
    RunFirst(st, chunk, rest);
    RunLocal(st1, rest);
    assert [] + Concat(rest) == Concat(rest);
    assert (all + Concat(rest))[Total(all)..] == all[Total(all)..] + Concat(rest);
  }

  lemma RunFirst(st: State, chunk: Bytes, rest: seq<Bytes>)
    ensures Run(st, [chunk] + rest) == Run(Transform(st, chunk), rest)
  {
    assert ([chunk] + rest)[1..] == rest;
  }

  lemma ConcatOne(a: Bytes)
    ensures Concat([a]) == a
  {
    assert [a][1..] == [] && a + [] == a;
  }

  lemma ConcatTwo(a: Bytes, b: Bytes)
    ensures Concat([a, b]) == a + b
  {
    assert [a, b][1..] == [b];
    ConcatOne(b);
  }

  /** A short payload and bytes behind it: the stream gives another address when it is cut where the header ends. */
  lemma ShortPayload(all: Bytes)
    requires Judge(all).Parsed? && PayloadLength(all) < 4 && |all| > Total(all)
    ensures Concat([all[..Total(all)], all[Total(all)..]]) == all
    ensures Run(START, [all[..Total(all)], all[Total(all)..]]).verdict != Judge(all)
  {
    var head, tail := all[..Total(all)], all[Total(all)..];
    HeaderAlone(all);
    hide Transform, IpText, GoodHeader;
    assert head + tail == all && [head] + [tail] == [head, tail];
    ConcatTwo(head, tail);
    FirstChunk(head);
    RunFirst(START, head, [tail]);
    RunOne(Transform(START, head), tail);
    UndefinedDiffers(all, head);
  }

  lemma RunOne(st: State, chunk: Bytes)
    requires st.finished && !st.verdict.Destroyed()
    ensures Run(st, [chunk]).verdict == st.verdict
  {
    RunLocal(st, [chunk]);
  }

  lemma HeaderAlone(all: Bytes)
    requires Judge(all).Parsed?
    ensures Judge(all[..Total(all)]).Parsed?
  {
    assert all[..Total(all)][..12] == all[..12];
  }

  lemma FirstChunk(all: Bytes)
    requires Judge(all).Parsed?
    ensures Transform(START, all) == State([], true, Parsed(IpText(all)), all[Total(all)..])
  {
    assert [] + all == all && [] + all[Total(all)..] == all[Total(all)..];
  }

  /** The first byte that `head` lacks prints as `undefined` there, and as a number in `all`. */
  lemma UndefinedDiffers(all: Bytes, head: Bytes)
    requires 16 <= |head| < 20 && |head| < |all| && head == all[..|head|]
    ensures IpText(all) != IpText(head)
  {
    var k, front := |head|, if |head| == 16 then "" else if |head| == 17 then ByteText(all, 16) + "."
      else if |head| == 18 then ByteText(all, 16) + "." + ByteText(all, 17) + "."
      else ByteText(all, 16) + "." + ByteText(all, 17) + "." + ByteText(all, 18) + ".";
    hide ToText;
    AtField(all, k, front);
    AtField(head, k, front);
    assert IsDigit(ToText(all[k])[0]) by {
      assert ToText(all[k])[0] in ToText(all[k]);
    }
    assert "undefined"[0] == 'u';
  }

  /** `front` is the text before the field of byte `k`. */
  lemma AtField(data: Bytes, k: nat, front: string)
    requires 16 <= k < 20
    requires front == if k == 16 then "" else if k == 17 then ByteText(data, 16) + "."
      else if k == 18 then ByteText(data, 16) + "." + ByteText(data, 17) + "."
      else ByteText(data, 16) + "." + ByteText(data, 17) + "." + ByteText(data, 18) + "."
    ensures ByteText(data, k) != "" && |IpText(data)| > |front| && IpText(data)[|front|] == ByteText(data, k)[0]
  {
    hide ToText;
  }

  // ----- When the address does not depend on the cut --------------------------------------------------

  /** A stream that ends with its header has no verdict before its last byte. */
  lemma PendingBefore(all: Bytes, n: nat)
    requires Judge(all).Parsed? && n < Total(all) <= |all|
    ensures Judge(all[..n]).Pending?
  {
    if n >= MIN_HEADER {
      assert all[..n][..12] == all[..12];
    }
  }

  /** A stream that ends with its header is looked at as a whole, however it was cut. */
  lemma {:induction false} RunToEnd(st: State, seen: Bytes, chunks: seq<Bytes>)
    requires var all := seen + Concat(chunks);
      Judge(all).Parsed? && |all| == Total(all) && After(st, seen) && (seen == all ==> st.verdict == Judge(all))
    ensures Run(st, chunks).verdict == Judge(seen + Concat(chunks))
    decreases chunks
  {
    var all := seen + Concat(chunks);
    if chunks == [] {
      assert all == seen;
    } else {
      hide Judge, GoodHeader, IpText;
      var more, rest := seen + chunks[0], Concat(chunks[1..]);
      assert all == more + rest;
      TransformAfter(st, seen, chunks[0]);
      if |seen| < |all| {
        assert all[..|seen|] == seen;
        PendingBefore(all, |seen|);
        if more == all {
          LastLook(st, seen, chunks[0]);
        }
      } else {
        assert seen == all == more;
        JustStays(st, chunks[0]);
      }
      RunToEnd(Transform(st, chunks[0]), more, chunks[1..]);
    }
  }

  lemma LastLook(st: State, seen: Bytes, chunk: Bytes)
    requires After(st, seen) && Judge(seen).Pending? && Judge(seen + chunk).Parsed?
    ensures Transform(st, chunk).verdict == Judge(seen + chunk)
  {
  }

  lemma JustStays(st: State, chunk: Bytes)
    requires st.finished
    ensures Transform(st, chunk).verdict == st.verdict
  {
  }

  /**
   The address of a proxied IPv4 connection is the same for every cut exactly if the payload of the
   header holds it, or nothing follows the header.
  */
  lemma AddressExactly(all: Bytes)
    requires Judge(all).Parsed?
    ensures (forall chunks: seq<Bytes> :: Concat(chunks) == all ==> Run(START, chunks).verdict == Judge(all)) <==>
      (PayloadLength(all) >= 4 || |all| == Total(all))
  {
    if PayloadLength(all) >= 4 {
      forall chunks: seq<Bytes> | Concat(chunks) == all ensures Run(START, chunks).verdict == Judge(all) {
        CuttingDoesNotMatter(chunks);
      }
    } else if |all| == Total(all) {
      forall chunks: seq<Bytes> | Concat(chunks) == all ensures Run(START, chunks).verdict == Judge(all) {
        assert [] + Concat(chunks) == all;
        RunToEnd(START, [], chunks);
      }
    } else {
      ShortPayload(all);
    }
  }

  // ----- The wire format ------------------------------------------------------------------------------

  /** The twelve bytes of the preamble, version and command, family, and the length of the payload, high byte first. */
  function Header(version: nat, command: nat, family: Byte, length: nat): Bytes
    requires version < 16 && command < 16 && length < 0x1_0000
  {
    [0x0D, 0x0A, 0x0D, 0x0A, 0x00, 0x0D, 0x0A, 0x51, 0x55, 0x49, 0x54, 0x0A,
     16 * version + command, family, length / 256, length % 256]
  }

  /** What every header means, with what follows it. */
  lemma WireFormat(version: nat, command: nat, family: Byte, length: nat, rest: Bytes)
    requires version < 16 && command < 16 && length < 0x1_0000
    ensures var all := Header(version, command, family, length) + rest; var v := Judge(all);
      if version != 2 || length > 512 then v == Malformed
      else if |rest| < length then v == Pending
      else if command == 0 then v == Local
      else if family != 0x11 then v == UnsupportedFamily
      else
        && Payload(all) == rest[length..]
        && (|rest| >= 4 ==> v == Parsed(
              ToText(rest[0]) + "." + ToText(rest[1]) + "." + ToText(rest[2]) + "." + ToText(rest[3])))
  {
    var head := Header(version, command, family, length);
    var all := head + rest;
    assert all[..12] == head[..12] == PREAMBLE;
    assert all[12] == head[12] && all[13] == head[13] && all[14] == head[14] && all[15] == head[15];
    assert forall i :: 0 <= i < |rest| ==> all[16 + i] == rest[i];
    assert PayloadLength(all) == length;
    if |rest| >= length {
      assert all[16 + length..] == rest[length..];
    }
  }

  /** Where the address should be but nothing is, the text says so. */
  lemma NoAddress(command: nat)
    requires 0 < command < 16
    ensures Judge(Header(2, command, 0x11, 0)) ==
      Parsed("undefined" + "." + "undefined" + "." + "undefined" + "." + "undefined")
  {
    hide ToText;
    var head := Header(2, command, 0x11, 0);
    assert head[..12] == PREAMBLE;
    assert ByteText(head, 16) == ByteText(head, 17) == ByteText(head, 18) == ByteText(head, 19) == "undefined";
  }

  /** Nothing else is a header. */
  lemma OtherPreamble(all: Bytes)
    requires |all| >= 16
    requires all[..12] != [0x0D, 0x0A, 0x0D, 0x0A, 0x00, 0x0D, 0x0A, 0x51, 0x55, 0x49, 0x54, 0x0A]
    ensures Judge(all) == Malformed
  {
  }

  /** An ordinary connection, cut anywhere: the address of the payload is announced, and what is behind it is pushed. */
  lemma OrdinaryConnection(command: nat, p: Bytes, tail: Bytes, chunks: seq<Bytes>)
    requires 0 < command < 16 && 4 <= |p| <= 512
    requires Concat(chunks) == Header(2, command, 0x11, |p|) + p + tail
    ensures Run(START, chunks).pushed == tail
    ensures Run(START, chunks).verdict ==
      Parsed(ToText(p[0]) + "." + ToText(p[1]) + "." + ToText(p[2]) + "." + ToText(p[3]))
  {
    var head := Header(2, command, 0x11, |p|);
    assert head + p + tail == head + (p + tail);
    WireFormat(2, command, 0x11, |p|, p + tail);
    CuttingDoesNotMatter(chunks);
    assert (p + tail)[|p|..] == tail;
    assert PayloadLength(head + (p + tail)) == |p| by {
      assert forall i :: 0 <= i < 16 ==> (head + (p + tail))[i] == head[i];
    }
  }

  // ----- The stream object --------------------------------------------------------------------------

  class LbTransform {
    var lbData: Bytes
    var finished: bool
    var verdict: Verdict
    var pushed: Bytes

    ghost function View(): State
      reads this
    {
      State(lbData, finished, verdict, pushed)
    }

    constructor ()
      ensures View() == START
    {
      lbData, finished, verdict, pushed := [], false, Pending, [];
    }

    /** `_transform` (lib/util.js:618-665); a destroyed stream is not called again. */
    method HandleChunk(chunk: Bytes)
      requires !verdict.Destroyed()
      modifies this
      ensures View() == Transform(old(View()), chunk)
    {
      if finished {
        pushed := pushed + chunk;
        return;
      }
      lbData := lbData + chunk;
      if |lbData| < MIN_HEADER {
        return;
      }
      if lbData[..|PREAMBLE|] != PREAMBLE {
        verdict := Malformed;
        return;
      }
      var verCmd := lbData[12];
      if verCmd / 16 != 2 {
        verdict := Malformed;
        return;
      }
      var command, family, payloadLength := verCmd % 16, lbData[13], PayloadLength(lbData);
      if payloadLength > 512 {
        verdict := Malformed;
        return;
      }
      var total := MIN_HEADER + payloadLength;
      if |lbData| < total {
        return;
      }
      finished := true;
      if command == 0 {
        verdict := Local;
        return;
      }
      if family != 0x11 {
        verdict := UnsupportedFamily;
        return;
      }
      verdict := Parsed(IpText(lbData));
      var remaining := lbData[total..];
      lbData := [];
      if |remaining| > 0 {
        pushed := pushed + remaining;
      }
    }
  }
}
