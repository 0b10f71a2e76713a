/** The admission handshake and the line reader behind it.
  *
  * The handshake reads its lines through a buffered reader, which reads ahead; the
  * admitted stream is read through that same reader, and the read loop puts a
  * second buffered reader on top. How the network cuts the bytes into reads is
  * arbitrary: a socket carries the sizes of its future reads.
  */
module Handshake {
  import opened Wrappers
  import opened Text

  newtype Byte = x: int | 0 <= x < 256

  const NEWLINE: Byte := 10

  function Bytes(s: string): seq<Byte>
    requires forall c | c in s :: c as int < 128
  {
    seq(|s|, i requires 0 <= i < |s| => assert s[i] in s; s[i] as int as Byte)
  }

  const CHALLENGE: seq<Byte> := Bytes("challenge ")
  const PROOF: seq<Byte> := Bytes("proof ")
  const OK: seq<Byte> := Bytes("ok")

  const HANDSHAKE_BUFFER := 4096
  const LINE_BUFFER := 64 * 1024

  const SPACE: Byte -> bool := (b: Byte) => b == 32 || 9 <= b <= 13

  /** Keyed hashing and hexadecimal, as far as the handshake needs them. */
  datatype Crypto = Crypto(
    mac: (seq<Byte>, seq<Byte>) -> seq<Byte>,
    hex: seq<Byte> -> seq<Byte>,
    unhex: seq<Byte> -> Option<seq<Byte>>)

  ghost predicate Sound(c: Crypto) {
    && (forall k, m :: c.mac(k, m) != [])
    && (forall x :: c.unhex(c.hex(x)) == Some(x))
    && (forall x :: x != [] ==> c.hex(x) != [])
    && (forall x, b | b in c.hex(x) :: !SPACE(b))
  }

  // ---------- readers ----------

  /** `unread` is what the peer sent and nobody read yet. */
  datatype Reader =
    | Socket(unread: seq<Byte>, chunks: seq<nat>)
    | Buffered(size: nat, buf: seq<Byte>, under: Reader)

  predicate Valid(r: Reader) {
    r.Buffered? ==> 0 < r.size && |r.buf| <= r.size && Valid(r.under)
  }

  /** Everything still to come out of a reader, through all its layers. */
  function Pending(r: Reader): seq<Byte> {
    match r
    case Socket(unread, _) => unread
    case Buffered(_, buf, under) => buf + Pending(under)
  }

  function Min(a: nat, b: nat): nat {
    if a < b then a else b
  }

  /** Hands out at most `max` of what is in the buffer. */
  function Serve(size: nat, data: seq<Byte>, under: Reader, max: nat): (res: (Reader, seq<Byte>))
    requires 0 < size && |data| <= size && Valid(under) && max > 0
    ensures Valid(res.0) && res.0.Buffered? && res.0.size == size
    ensures res.1 + Pending(res.0) == data + Pending(under)
    ensures |res.1| <= max && (data != [] ==> res.1 != [])
  {
    var n := Min(max, |data|);
    assert data[..n] + (data[n..] + Pending(under)) == data + Pending(under);
    (Buffered(size, data[n..], under), data[..n])
  }

  /** One read of at most `max` bytes. It returns nothing only at the end. */
  function ReadSome(r: Reader, max: nat): (res: (Reader, seq<Byte>))
    requires Valid(r) && max > 0
    ensures Valid(res.0) && res.0.Buffered? == r.Buffered? && (r.Buffered? ==> res.0.size == r.size)
    ensures res.1 + Pending(res.0) == Pending(r)
    ensures |res.1| <= max && (Pending(r) != [] ==> res.1 != [])
  {
    match r
    case Socket(unread, chunks) =>
      if unread == [] then (r, [])
      else
        var chunk := if chunks == [] then max else Min(chunks[0], max);
        var n := Min(if chunk == 0 then 1 else chunk, |unread|);
        (Socket(unread[n..], if chunks == [] then [] else chunks[1..]), unread[..n])
    case Buffered(size, buf, under) =>
      if buf != [] then Serve(size, buf, under, max)
      else
        assert Pending(r) == Pending(under);
        if max >= size then
          var (under', data) := ReadSome(under, max);
          (Buffered(size, [], under'), data)
        else
          var (under', data) := ReadSome(under, size);
          Serve(size, data, under', max)
  }

  lemma Shift<T>(a: seq<T>, b: seq<T>, c: seq<T>, d: seq<T>)
    ensures a + (b + c + d) == (a + b) + c + d
    ensures (b + c + d) + a == b + c + (d + a)
  {
  }

  lemma CutSkips(a: seq<Byte>, s: seq<Byte>)
    requires NEWLINE !in a && NEWLINE in s
    ensures var (line, rest) := Cut(s, NEWLINE).value; Cut(a + s, NEWLINE) == Some((a + line, rest))
  {
    var (line, rest) := Cut(s, NEWLINE).value;
    Shift(a, line, [NEWLINE], rest);
    CutAt(a + line, NEWLINE, rest);
    hide Cut;
  }

  lemma CutExtends(s: seq<Byte>, more: seq<Byte>)
    requires NEWLINE in s
    ensures var (line, rest) := Cut(s, NEWLINE).value; Cut(s + more, NEWLINE) == Some((line, rest + more))
  {
    var (line, rest) := Cut(s, NEWLINE).value;
    Shift(more, line, [NEWLINE], rest);
    CutAt(line, NEWLINE, rest + more);
    hide Cut;
  }

  /** `line` is the stream's first line, newline included, and `rest` what follows. */
  predicate FirstLine(stream: seq<Byte>, line: seq<Byte>, rest: seq<Byte>) {
    && Cut(stream, NEWLINE).Some?
    && line == Cut(stream, NEWLINE).value.0 + [NEWLINE] && rest == Cut(stream, NEWLINE).value.1
  }

  /** Reads up to and including the first newline, however many reads and full
    * buffers that takes. */
  method ReadLine(r: Reader) returns (r': Reader, line: seq<Byte>, ok: bool)
    requires Valid(r) && r.Buffered?
    ensures Valid(r') && r'.Buffered?
    ensures ok <==> NEWLINE in Pending(r)
    ensures ok ==> FirstLine(Pending(r), line, Pending(r'))
    ensures !ok ==> Pending(r') == []
  {
    var full: seq<Byte> := [];
    r' := r;
    while true
      invariant Valid(r') && r'.Buffered?
      invariant NEWLINE !in full
      invariant full + Pending(r') == Pending(r)
      decreases |Pending(r')|, |Pending(r'.under)|
    {
      var at := Cut(r'.buf, NEWLINE);
      if at.Some? {
        var (before, rest) := at.value;
        CutExtends(r'.buf, Pending(r'.under));
        CutSkips(full, Pending(r'));
        line := full + before + [NEWLINE];
        r' := Buffered(r'.size, rest, r'.under);
        return r', line, true;
      }
      if |r'.buf| == r'.size {
        full := full + r'.buf;
        r' := Buffered(r'.size, [], r'.under);
      } else {
        var (under, data) := ReadSome(r'.under, r'.size - |r'.buf|);
        if data == [] {
          line := full + r'.buf;
          return Buffered(r'.size, [], under), line, false;
        }
        assert r'.buf + data + Pending(under) == Pending(r');
        r' := Buffered(r'.size, r'.buf + data, under);
      }
    }
  }

  lemma TrimForgetsNewline(line: seq<Byte>)
    ensures Trim(line + [NEWLINE], SPACE) == Trim(line, SPACE)
  {
    hide Trim, TrimLeft, TrimRight;
    var t := Trim(line, SPACE);
    var a, b := TrimIsAround(line, SPACE);
    assert line + [NEWLINE] == a + t + (b + [NEWLINE]);
    AroundIsTrimmed(line + [NEWLINE], a, t, b + [NEWLINE], SPACE);
  }

  lemma CutPrefixIs(s: seq<Byte>, prefix: seq<Byte>, payload: seq<Byte>)
    ensures CutPrefix(s, prefix) == Some(payload) <==> s == prefix + payload
  {
  }

  /** The first line is `line`, and reads `text` once the white space around it is
    * gone. */
  ghost predicate Says(stream: seq<Byte>, line: seq<Byte>, rest: seq<Byte>, text: seq<Byte>) {
    stream == line + [NEWLINE] + rest && NEWLINE !in line && Trim(line, SPACE) == text
  }

  lemma SaysItsCut(stream: seq<Byte>, line: seq<Byte>, rest: seq<Byte>, text: seq<Byte>)
    ensures Says(stream, line, rest, text)
            <==> Cut(stream, NEWLINE) == Some((line, rest)) && Trim(line + [NEWLINE], SPACE) == text
  {
    hide Cut, Trim;
    if NEWLINE !in line { CutAt(line, NEWLINE, rest); }
    TrimForgetsNewline(line);
  }

  // ---------- the two sides ----------

  function Line(prefix: seq<Byte>, payload: seq<Byte>): seq<Byte> {
    prefix + payload + [NEWLINE]
  }

  /** The stream starts with the proof of this challenge. */
  predicate StartsWithProof(stream: seq<Byte>, c: Crypto, key: seq<Byte>, challenge: seq<Byte>) {
    match Cut(stream, NEWLINE)
    case None => false
    case Some((line, _)) => CutPrefix(Trim(line + [NEWLINE], SPACE), PROOF) == Some(c.hex(c.mac(key, challenge)))
  }

  function AfterLine(stream: seq<Byte>): seq<Byte> {
    match Cut(stream, NEWLINE)
    case None => []
    case Some((_, rest)) => rest
  }

  /** What may fail on a side of its own: the deadlines, the random challenge, each
    * write, and the queue of admitted streams. A deadline that passes while a line is
    * awaited ends the socket's bytes there. */
  datatype Luck = Luck(deadlineSet: bool, randomRead: bool, firstSent: bool, secondSent: bool, deadlineCleared: bool,
                       queued: bool)

  predicate Opens(l: Luck) {
    l.deadlineSet && l.randomRead && l.firstSent
  }

  /** Only the proof itself is one: with white space around it at most, on a line of
    * its own. */
  lemma ProofIsTheFirstLine(stream: seq<Byte>, c: Crypto, key: seq<Byte>, challenge: seq<Byte>)
    ensures StartsWithProof(stream, c, key, challenge)
            <==> exists line, rest :: Says(stream, line, rest, PROOF + c.hex(c.mac(key, challenge)))
    ensures StartsWithProof(stream, c, key, challenge) ==>
              exists line :: Says(stream, line, AfterLine(stream), PROOF + c.hex(c.mac(key, challenge)))
  {
    hide Cut, Trim, CutPrefix, Bytes, Says;
    var proof := c.hex(c.mac(key, challenge));
    if StartsWithProof(stream, c, key, challenge) {
      var (line, rest) := Cut(stream, NEWLINE).value;
      CutPrefixIs(Trim(line + [NEWLINE], SPACE), PROOF, proof);
      SaysItsCut(stream, line, rest, PROOF + proof);
      assert rest == AfterLine(stream) && Says(stream, line, rest, PROOF + proof);
    }
    if line, rest :| Says(stream, line, rest, PROOF + proof) {
      SaysItsCut(stream, line, rest, PROOF + proof);
      CutPrefixIs(Trim(line + [NEWLINE], SPACE), PROOF, proof);
    }
  }

  /** The admitting side: challenge, verify the proof, admit or not. What it read
    * ahead travels with the stream. */
  method ServeHandshake(socket: Reader, c: Crypto, key: seq<Byte>, challenge: seq<Byte>, luck: Luck)
    returns (admitted: Option<Reader>, said: seq<Byte>)
    requires Valid(socket)
    ensures admitted.Some? <==>
              && StartsWithProof(Pending(socket), c, key, challenge)
              && Opens(luck) && luck.secondSent && luck.deadlineCleared && luck.queued
    ensures admitted.Some? ==>
              exists line :: Says(Pending(socket), line, Pending(admitted.value), PROOF + c.hex(c.mac(key, challenge)))
    ensures admitted.Some? ==> Valid(admitted.value) && Pending(admitted.value) == AfterLine(Pending(socket))
    ensures said == (if Opens(luck) then Line(CHALLENGE, c.hex(challenge)) else [])
                  + if Opens(luck) && StartsWithProof(Pending(socket), c, key, challenge) && luck.secondSent
                    then Line(OK, []) else []
  {
    hide Bytes, Cut, Trim, CutPrefix;
    said := [];
    if !luck.deadlineSet {
      return None, said;
    }
    if !luck.randomRead {
      return None, said;
    }
    if !luck.firstSent {
      return None, said;
    }
    said := Line(CHALLENGE, c.hex(challenge));
    var rw := Buffered(HANDSHAKE_BUFFER, [], socket);
    var rest, line, ok := ReadLine(rw);
    assert Pending(rw) == Pending(socket);
    if !ok {
      return None, said;
    }
    var proof := CutPrefix(Trim(line, SPACE), PROOF);
    if proof.None? || proof.value != c.hex(c.mac(key, challenge)) {
      return None, said;
    }
    if !luck.secondSent {
      return None, said;
    }
    said := said + Line(OK, []);
    if !luck.deadlineCleared {
      return None, said;
    }
    if !luck.queued {
      return None, said;
    }
    ProofIsTheFirstLine(Pending(socket), c, key, challenge);
    return Some(rest), said;
  }

  /** The stream starts with a challenge. */
  function ChallengeIn(stream: seq<Byte>, c: Crypto): Option<seq<Byte>> {
    match Cut(stream, NEWLINE)
    case None => None
    case Some((line, _)) =>
      match CutPrefix(Trim(line + [NEWLINE], SPACE), CHALLENGE)
      case None => None
      case Some(raw) =>
        match c.unhex(raw)
        case None => None
        case Some(challenge) => if |challenge| == 32 then Some(challenge) else None
  }

  predicate StartsWithOK(stream: seq<Byte>) {
    match Cut(stream, NEWLINE)
    case None => false
    case Some((line, _)) => Trim(line + [NEWLINE], SPACE) == OK
  }

  /** Only 32 bytes in hexadecimal are a challenge, and only "ok" is a verdict. */
  lemma ChallengeIsTheFirstLine(stream: seq<Byte>, c: Crypto, challenge: seq<Byte>)
    ensures ChallengeIn(stream, c) == Some(challenge)
            <==> exists line, rest, raw :: Says(stream, line, rest, CHALLENGE + raw)
                   && c.unhex(raw) == Some(challenge) && |challenge| == 32
    ensures ChallengeIn(stream, c) == Some(challenge) ==>
              exists line, raw :: Says(stream, line, AfterLine(stream), CHALLENGE + raw)
                && c.unhex(raw) == Some(challenge) && |challenge| == 32
  {
    hide Cut, Trim, CutPrefix, Bytes, Says;
    if ChallengeIn(stream, c) == Some(challenge) {
      var (line, rest) := Cut(stream, NEWLINE).value;
      var raw := CutPrefix(Trim(line + [NEWLINE], SPACE), CHALLENGE).value;
      CutPrefixIs(Trim(line + [NEWLINE], SPACE), CHALLENGE, raw);
      SaysItsCut(stream, line, rest, CHALLENGE + raw);
      assert rest == AfterLine(stream) && Says(stream, line, rest, CHALLENGE + raw);
    }
    if line, rest, raw :|
        Says(stream, line, rest, CHALLENGE + raw) && c.unhex(raw) == Some(challenge) && |challenge| == 32 {
      SaysItsCut(stream, line, rest, CHALLENGE + raw);
      CutPrefixIs(Trim(line + [NEWLINE], SPACE), CHALLENGE, raw);
    }
  }

  lemma VerdictIsTheFirstLine(stream: seq<Byte>)
    ensures StartsWithOK(stream) <==> exists line, rest :: Says(stream, line, rest, OK)
    ensures StartsWithOK(stream) ==> exists line :: Says(stream, line, AfterLine(stream), OK)
  {
    hide Cut, Trim, Bytes, Says;
    if StartsWithOK(stream) {
      var (line, rest) := Cut(stream, NEWLINE).value;
      SaysItsCut(stream, line, rest, OK);
      assert rest == AfterLine(stream) && Says(stream, line, rest, OK);
    }
    if line, rest :| Says(stream, line, rest, OK) {
      SaysItsCut(stream, line, rest, OK);
    }
  }

  /** The dialling side: answer the challenge, await the verdict, and hand back
    * the reader it used. */
  method ProvePassword(socket: Reader, c: Crypto, key: seq<Byte>, luck: Luck)
    returns (admitted: Option<Reader>, said: seq<Byte>)
    requires Valid(socket)
    ensures admitted.Some? <==>
              && ChallengeIn(Pending(socket), c).Some? && StartsWithOK(AfterLine(Pending(socket)))
              && luck.deadlineSet && luck.firstSent && luck.deadlineCleared
    ensures admitted.Some? ==>
              exists challenge, line, raw, middle, verdict ::
                && Says(Pending(socket), line, middle, CHALLENGE + raw) && c.unhex(raw) == Some(challenge)
                && |challenge| == 32 && Says(middle, verdict, Pending(admitted.value), OK)
    ensures admitted.Some? ==> Valid(admitted.value) && Pending(admitted.value) == AfterLine(AfterLine(Pending(socket)))
    ensures said == if !luck.deadlineSet || !luck.firstSent then []
                    else match ChallengeIn(Pending(socket), c)
                         case None => []
                         case Some(challenge) => Line(PROOF, c.hex(c.mac(key, challenge)))
  {
    hide Bytes, Cut, Trim, CutPrefix;
    said := [];
    if !luck.deadlineSet {
      return None, said;
    }
    var rw := Buffered(HANDSHAKE_BUFFER, [], socket);
    var r1, line, ok := ReadLine(rw);
    assert Pending(rw) == Pending(socket);
    if !ok {
      return None, said;
    }
    var raw := CutPrefix(Trim(line, SPACE), CHALLENGE);
    if raw.None? {
      return None, said;
    }
    var challenge := c.unhex(raw.value);
    if challenge.None? || |challenge.value| != 32 {
      return None, said;
    }
    if !luck.firstSent {
      return None, said;
    }
    said := Line(PROOF, c.hex(c.mac(key, challenge.value)));
    var r2, verdict, ok2 := ReadLine(r1);
    if !ok2 {
      return None, said;
    }
    if Trim(verdict, SPACE) != OK {
      return None, said;
    }
    if !luck.deadlineCleared {
      return None, said;
    }
    ChallengeIsTheFirstLine(Pending(socket), c, challenge.value);
    VerdictIsTheFirstLine(AfterLine(Pending(socket)));
    return Some(r2), said;
  }

  // ---------- the read loop ----------

  /** The complete lines of a stream, newlines included; an unfinished last line
    * is not one. */
  function Lines(s: seq<Byte>): seq<seq<Byte>>
    decreases |s|
  {
    match Cut(s, NEWLINE)
    case None => []
    case Some((line, rest)) => [line + [NEWLINE]] + Lines(rest)
  }

  /** Hands every complete line of an admitted stream on, in order. */
  method ReadLoop(stream: Reader) returns (lines: seq<seq<Byte>>)
    requires Valid(stream)
    ensures lines == Lines(Pending(stream))
  {
    hide Cut;
    lines := [];
    var reader := Buffered(LINE_BUFFER, [], stream);
    assert Pending(reader) == Pending(stream);
    while true
      invariant Valid(reader) && reader.Buffered?
      invariant lines + Lines(Pending(reader)) == Lines(Pending(stream))
      decreases |Pending(reader)|
    {
      var next, line, ok := ReadLine(reader);
      if !ok {
        return;
      }
      assert Lines(Pending(reader)) == [line] + Lines(Pending(next));
      assert lines + ([line] + Lines(Pending(next))) == (lines + [line]) + Lines(Pending(next));
      lines := lines + [line];
      reader := next;
    }
  }

  /** Admitting side: exactly the lines after the proof reach the parser. */
  method AdmitAndRead(socket: Reader, c: Crypto, key: seq<Byte>, challenge: seq<Byte>, luck: Luck)
    returns (admitted: bool, lines: seq<seq<Byte>>)
    requires Valid(socket)
    ensures admitted <==>
              && StartsWithProof(Pending(socket), c, key, challenge)
              && Opens(luck) && luck.secondSent && luck.deadlineCleared && luck.queued
    ensures admitted ==> |Lines(Pending(socket))| >= 1 && lines == Lines(Pending(socket))[1..]
    ensures !admitted ==> lines == []
  {
    var stream, said := ServeHandshake(socket, c, key, challenge, luck);
    if stream.None? {
      return false, [];
    }
    lines := ReadLoop(stream.value);
    return true, lines;
  }

  /** Dialling side: exactly the lines after the verdict reach the parser. */
  method DialAndRead(socket: Reader, c: Crypto, key: seq<Byte>, luck: Luck)
    returns (admitted: bool, lines: seq<seq<Byte>>)
    requires Valid(socket)
    ensures admitted <==>
              && ChallengeIn(Pending(socket), c).Some? && StartsWithOK(AfterLine(Pending(socket)))
              && luck.deadlineSet && luck.firstSent && luck.deadlineCleared
    ensures admitted ==> |Lines(Pending(socket))| >= 2 && lines == Lines(Pending(socket))[2..]
    ensures !admitted ==> lines == []
  {
    var stream, said := ProvePassword(socket, c, key, luck);
    if stream.None? {
      return false, [];
    }
    lines := ReadLoop(stream.value);
    TwoLines(Pending(socket));
    return true, lines;
  }

  lemma TwoLines(s: seq<Byte>)
    requires NEWLINE in s && NEWLINE in AfterLine(s)
    ensures |Lines(s)| >= 2 && Lines(s)[2..] == Lines(AfterLine(AfterLine(s)))
  {
    assert Lines(s)[1..] == Lines(AfterLine(s));
    assert Lines(AfterLine(s))[1..] == Lines(AfterLine(AfterLine(s)));
  }

  // ---------- both sides together ----------

  lemma LineIsCut(prefix: seq<Byte>, payload: seq<Byte>, rest: seq<Byte>)
    requires NEWLINE !in prefix && NEWLINE !in payload
    ensures Cut(Line(prefix, payload) + rest, NEWLINE) == Some((prefix + payload, rest))
  {
    assert Line(prefix, payload) + rest == (prefix + payload) + [NEWLINE] + rest;
    CutAt(prefix + payload, NEWLINE, rest);
  }

  lemma {:induction false} TrimDropsNewline(s: seq<Byte>)
    requires s != [] && !SPACE(s[0]) && !SPACE(s[|s| - 1])
    ensures Trim(s + [NEWLINE], SPACE) == s
  {
    var t := s + [NEWLINE];
    assert TrimLeft(t, SPACE) == t;
    assert t[..|t| - 1] == s;
    assert TrimRight(s, SPACE) == s;
  }

  lemma PayloadIsRead(c: Crypto, prefix: seq<Byte>, x: seq<Byte>, rest: seq<Byte>)
    requires Sound(c) && x != [] && prefix != [] && !SPACE(prefix[0]) && NEWLINE !in prefix
    ensures var (line, after) := Cut(Line(prefix, c.hex(x)) + rest, NEWLINE).value;
      NEWLINE in Line(prefix, c.hex(x)) + rest && after == rest
          && CutPrefix(Trim(line + [NEWLINE], SPACE), prefix) == Some(c.hex(x))
  {
    var h := c.hex(x);
    assert NEWLINE !in h by { assert SPACE(NEWLINE); }
    LineIsCut(prefix, h, rest);
    assert !SPACE(h[|h| - 1]) by { assert h[|h| - 1] in h; }
    TrimDropsNewline(prefix + h);
    assert (prefix + h)[|prefix|..] == h;
  }

  /** A peer with the same key is admitted, and each side is left with exactly
    * what the other sends after the handshake. */
  lemma SameKeyMeets(c: Crypto, key: seq<Byte>, challenge: seq<Byte>, fromDialler: seq<Byte>, fromAdmitter: seq<Byte>)
    requires Sound(c) && |challenge| == 32
    ensures var proof := Line(PROOF, c.hex(c.mac(key, challenge)));
      StartsWithProof(proof + fromDialler, c, key, challenge) && AfterLine(proof + fromDialler) == fromDialler
    ensures var verdict := Line(CHALLENGE, c.hex(challenge)) + (Line(OK, []) + fromAdmitter);
      && ChallengeIn(verdict, c) == Some(challenge)
      && StartsWithOK(AfterLine(verdict)) && AfterLine(AfterLine(verdict)) == fromAdmitter
  {
    PayloadIsRead(c, PROOF, c.mac(key, challenge), fromDialler);
    PayloadIsRead(c, CHALLENGE, challenge, Line(OK, []) + fromAdmitter);
    LineIsCut(OK, [], fromAdmitter);
    TrimDropsNewline(OK);
    assert OK + [] == OK;
  }

  /** A peer whose key gives another proof is not admitted. */
  lemma OtherKeyIsRefused(c: Crypto, key: seq<Byte>, other: seq<Byte>, challenge: seq<Byte>, fromDialler: seq<Byte>)
    requires Sound(c) && c.mac(other, challenge) != c.mac(key, challenge)
    ensures !StartsWithProof(Line(PROOF, c.hex(c.mac(other, challenge))) + fromDialler, c, key, challenge)
  {
    PayloadIsRead(c, PROOF, c.mac(other, challenge), fromDialler);
    assert c.unhex(c.hex(c.mac(other, challenge))) != c.unhex(c.hex(c.mac(key, challenge)));
  }
}
