/** Invite codes: printing a room's address and reading it back.
  *
  * What counts as a multiaddr is decided elsewhere; it is the parameter `valid`.
  */
module Invites {
  import opened Wrappers
  import opened Protocol
  import opened Text

  datatype Invite = Invite(community: string, password: string, key: string, addrs: seq<string>, version: int)

  datatype ParseError =
    | FromNewerVersion(version: int)
    | NoAddress
    | EmptyPart
    | BadAddress(raw: string)

  /** Unicode white space, as Go trims it. */
  predicate IsSpace(c: char) {
    c in ['\t', '\n', '\U{0B}', '\U{0C}', '\r', ' ', '\U{85}', '\U{A0}', '\U{1680}', '\U{2028}', '\U{2029}',
        '\U{202F}', '\U{205F}', '\U{3000}']
    || '\U{2000}' <= c <= '\U{200A}'
  }

  const SPACE: char -> bool := (c: char) => IsSpace(c)

  // ---------- printing ----------

  /** Two parts with a colon between them. */
  function Colon(a: string, b: string): string {
    a + [':'] + b
  }

  function Body(i: Invite): string {
    Colon(i.community, Colon(i.password, Colon(i.key, Join(i.addrs, ','))))
  }

  function Encode(i: Invite): string {
    if i.version > 0 then ['v'] + Colon(Itoa(i.version), Body(i)) else Body(i)
  }

  // ---------- parsing ----------

  predicate AllDigits(s: string) {
    forall c | c in s :: IsDigit(c)
  }

  /** Reads a leading "vN:" as a version. */
  function SplitVersionPrefix(code: string): Option<(nat, string)> {
    match CutPrefix(code, "v")
    case None => None
    case Some(rest) =>
      match Cut(rest, ':')
      case None => None
      case Some((digits, tail)) =>
        if digits == "" || !AllDigits(digits) then None
        else
          match Atoi(digits)
          case None => None
          case Some(version) => Some((version, tail))
  }

  /** The addresses among the comma-separated pieces, up to the first bad one. */
  function ReadAddrs(raws: seq<string>, valid: string -> bool): Result<seq<string>, ParseError> {
    if raws == [] then Success([])
    else
      var n := |raws| - 1;
      match ReadAddrs(raws[..n], valid)
      case Failure(e) => Failure(e)
      case Success(addrs) =>
        var raw := Trim(raws[n], SPACE);
        if raw == "" then Success(addrs)
        else if !valid(raw) then Failure(BadAddress(raw))
        else Success(addrs + [raw])
  }

  function ReadBody(version: int, body: string, valid: string -> bool): Result<Invite, ParseError> {
    if version > PROTOCOL_VERSION then Failure(FromNewerVersion(version))
    else
      var parts := SplitN(body, ':', 4);
      if |parts| < 4 then Failure(NoAddress)
      else if parts[0] == "" || parts[1] == "" || parts[2] == "" then Failure(EmptyPart)
      else
        match ReadAddrs(Split(parts[3], ','), valid)
        case Failure(e) => Failure(e)
        case Success(addrs) =>
          if addrs == [] then Failure(NoAddress)
          else Success(Invite(parts[0], parts[1], parts[2], addrs, version))
  }

  /** The version and the rest, when the code starts with a version and the rest
    * still has four parts. */
  function Versioned(code: string): Option<(nat, string)> {
    match SplitVersionPrefix(code)
    case None => None
    case Some((version, rest)) => if |SplitN(rest, ':', 4)| == 4 then Some((version, rest)) else None
  }

  function Parsed(code: string, valid: string -> bool): Result<Invite, ParseError> {
    var c := Trim(code, SPACE);
    match Versioned(c)
    case Some((version, rest)) => ReadBody(version, rest, valid)
    case None => ReadBody(PROTOCOL_VERSION_LEGACY, c, valid)
  }

  /** The parser as the program runs it, with its loops over parts and pieces. */
  method ParseInviteCode(code: string, valid: string -> bool) returns (r: Result<Invite, ParseError>)
    ensures r == Parsed(code, valid)
  {
    hide SplitVersionPrefix, SplitN, Split, Trim, ReadAddrs;
    var c := Trim(code, SPACE);
    var version: int, body := PROTOCOL_VERSION_LEGACY, c;
    var prefix := SplitVersionPrefix(c);
    if prefix.Some? {
      var parts := SplitN(prefix.value.1, ':', 4);
      if |parts| == 4 {
        version, body := prefix.value.0, prefix.value.1;
      }
    }
    if version > PROTOCOL_VERSION {
      return Failure(FromNewerVersion(version));
    }
    var parts := SplitN(body, ':', 4);
    if |parts| < 4 {
      return Failure(NoAddress);
    }
    for i := 0 to 3
      invariant forall j | 0 <= j < i :: parts[j] != ""
    {
      if parts[i] == "" {
        return Failure(EmptyPart);
      }
    }
    var addrs := CollectAddrs(Split(parts[3], ','), valid);
    if addrs.Failure? {
      return Failure(addrs.error);
    }
    if |addrs.value| == 0 {
      return Failure(NoAddress);
    }
    return Success(Invite(parts[0], parts[1], parts[2], addrs.value, version));
  }

  /** The loop over the comma-separated pieces. */
  method CollectAddrs(raws: seq<string>, valid: string -> bool) returns (r: Result<seq<string>, ParseError>)
    ensures r == ReadAddrs(raws, valid)
  {
    var addrs: seq<string> := [];
    for i := 0 to |raws|
      invariant ReadAddrs(raws[..i], valid) == Success(addrs)
    {
      assert raws[..i + 1][..i] == raws[..i];
      var raw := Trim(raws[i], SPACE);
      if raw == "" {
        continue;
      }
      if !valid(raw) {
        BadPieceSpoilsAll(raws, i + 1, valid);
        return Failure(BadAddress(raw));
      }
      addrs := addrs + [raw];
    }
    assert raws[..|raws|] == raws;
    return Success(addrs);
  }

  lemma {:induction false} BadPieceSpoilsAll(raws: seq<string>, i: nat, valid: string -> bool)
    requires i <= |raws| && ReadAddrs(raws[..i], valid).Failure?
    ensures ReadAddrs(raws, valid) == ReadAddrs(raws[..i], valid)
    decreases |raws|
  {
    if i == |raws| {
      assert raws[..i] == raws;
    } else {
      var n := |raws| - 1;
      assert raws[..n][..i] == raws[..i];
      BadPieceSpoilsAll(raws[..n], i, valid);
    }
  }

  // ---------- what a well-formed invite is ----------

  predicate PartOK(s: string) {
    s != "" && ':' !in s
  }

  predicate AddrOK(a: string, valid: string -> bool) {
    a != "" && ',' !in a && Trimmed(a, SPACE) && valid(a)
  }

  predicate WellFormed(i: Invite, valid: string -> bool) {
    && PartOK(i.community) && PartOK(i.password) && PartOK(i.key)
    && i.addrs != [] && forall a | a in i.addrs :: AddrOK(a, valid)
  }

  // ---------- reading back what was printed ----------

  lemma {:induction false} GoodAddrsAreRead(addrs: seq<string>, valid: string -> bool)
    requires forall a | a in addrs :: AddrOK(a, valid)
    ensures ReadAddrs(addrs, valid) == Success(addrs)
  {
    hide IsSpace;
    if addrs != [] {
      var n := |addrs| - 1;
      assert addrs[n] in addrs && forall a | a in addrs[..n] :: a in addrs;
      GoodAddrsAreRead(addrs[..n], valid);
      TrimTrims(addrs[n], SPACE);
      assert addrs == addrs[..n] + [addrs[n]];
    }
  }

  lemma ColonSplits(a: string, b: string, n: nat)
    requires ':' !in a && n > 1
    ensures SplitN(Colon(a, b), ':', n) == [a] + SplitN(b, ':', n - 1)
    ensures Cut(Colon(a, b), ':') == Some((a, b))
  {
    SplitNAt(a, ':', b, n);
    CutAt(a, ':', b);
  }

  lemma OnePart(s: string)
    ensures SplitN(s, ':', 1) == [s]
  {
  }

  lemma BodySplits(i: Invite)
    requires PartOK(i.community) && PartOK(i.password) && PartOK(i.key)
    ensures SplitN(Body(i), ':', 4) == [i.community, i.password, i.key, Join(i.addrs, ',')]
    ensures Cut(Body(i), ':') == Some((i.community, Colon(i.password, Colon(i.key, Join(i.addrs, ',')))))
  {
    hide Colon, SplitN, Cut, Join;
    var j := Join(i.addrs, ',');
    OnePart(j);
    ColonSplits(i.key, j, 2);
    ColonSplits(i.password, Colon(i.key, j), 3);
    ColonSplits(i.community, Colon(i.password, Colon(i.key, j)), 4);
  }

  lemma AddrsAreRead(i: Invite, valid: string -> bool)
    requires WellFormed(i, valid)
    ensures ReadAddrs(Split(Join(i.addrs, ','), ','), valid) == Success(i.addrs)
  {
    assert forall a | a in i.addrs :: ',' !in a;
    SplitUndoesJoin(i.addrs, ',');
    GoodAddrsAreRead(i.addrs, valid);
  }

  lemma BodyIsRead(i: Invite, version: int, valid: string -> bool)
    requires WellFormed(i, valid) && version <= PROTOCOL_VERSION
    ensures ReadBody(version, Body(i), valid) == Success(i.(version := version))
  {
    AddrsAreRead(i, valid);
    BodySplits(i);
    hide Body, SplitN, Split, Join, ReadAddrs;
  }

  lemma {:induction false} JoinEndsInLast(addrs: seq<string>)
    requires addrs != [] && forall a | a in addrs :: a != ""
    ensures var j, last := Join(addrs, ','), addrs[|addrs| - 1]; j != "" && last != "" && j[|j| - 1] == last[|last| - 1]
  {
    assert addrs[0] in addrs && addrs[|addrs| - 1] in addrs && forall a | a in addrs[1..] :: a in addrs;
    if |addrs| > 1 { JoinEndsInLast(addrs[1..]); }
  }

  lemma CodeIsTrimmed(i: Invite, valid: string -> bool)
    requires WellFormed(i, valid) && (i.version > 0 || !IsSpace(i.community[0]))
    ensures Trim(Encode(i), SPACE) == Encode(i)
  {
    hide Trim;
    var code := Encode(i);
    JoinEndsInLast(i.addrs);
    var last := i.addrs[|i.addrs| - 1];
    assert last in i.addrs;
    assert code[|code| - 1] == last[|last| - 1];
    TrimTrims(code, SPACE);
  }

  lemma NumberHasNoColon(digits: string)
    requires AllDigits(digits)
    ensures ':' !in digits
  {
    assert !IsDigit(':');
  }

  /** A number and a colon in front of a code of four parts are read as a version. */
  lemma VersionIsRead(digits: string, body: string)
    requires digits != "" && AllDigits(digits) && Value(digits) <= MAX_INT && |SplitN(body, ':', 4)| == 4
    ensures Versioned(['v'] + Colon(digits, body)) == Some((Value(digits), body))
  {
    hide Cut, SplitN, Colon, Value, AllDigits;
    var code := ['v'] + Colon(digits, body);
    assert "v" <= code && code[1..] == Colon(digits, body);
    NumberHasNoColon(digits);
    ColonSplits(digits, body, 4);
  }

  lemma PrintedVersionIsRead(i: Invite)
    requires 0 < i.version <= MAX_INT && PartOK(i.community) && PartOK(i.password) && PartOK(i.key)
    ensures Versioned(Encode(i)) == Some((i.version, Body(i)))
  {
    BodySplits(i);
    hide Body, SplitN, Value, Versioned, Itoa;
    VersionIsRead(Itoa(i.version), Body(i));
  }

  /** Every well-formed invite of a version this build speaks comes back from its
    * code unchanged, colons in the addresses and all. */
  lemma PrintThenParse(i: Invite, valid: string -> bool)
    requires WellFormed(i, valid) && 1 <= i.version <= PROTOCOL_VERSION
    ensures Parsed(Encode(i), valid) == Success(i)
  {
    CodeIsTrimmed(i, valid);
    PrintedVersionIsRead(i);
    BodyIsRead(i, i.version, valid);
  }

  /** A code of a newer version is refused as such, whatever else it carries. */
  lemma NewerIsRefused(i: Invite, valid: string -> bool)
    requires WellFormed(i, valid) && PROTOCOL_VERSION < i.version <= MAX_INT
    ensures Parsed(Encode(i), valid) == Failure(FromNewerVersion(i.version))
  {
    CodeIsTrimmed(i, valid);
    PrintedVersionIsRead(i);
  }

  // ---------- printing back what was read ----------

  lemma {:induction false} ReadAddrsAreGood(raws: seq<string>, valid: string -> bool)
    requires forall raw | raw in raws :: ',' !in raw
    requires ReadAddrs(raws, valid).Success?
    ensures var addrs := ReadAddrs(raws, valid).value;
      (forall a | a in addrs :: AddrOK(a, valid)) && Total(addrs) <= Total(raws) && |addrs| <= |raws|
  {
    if raws != [] {
      var n := |raws| - 1;
      assert raws[n] in raws && forall raw | raw in raws[..n] :: raw in raws;
      ReadAddrsAreGood(raws[..n], valid);
      TrimTrims(raws[n], SPACE);
      var addrs, raw := ReadAddrs(raws[..n], valid).value, Trim(raws[n], SPACE);
      assert (addrs + [raw])[..|addrs + [raw]| - 1] == addrs;
    }
  }

  lemma {:induction false} TotalFromFront(parts: seq<string>)
    requires parts != []
    ensures Total(parts) == |parts[0]| + Total(parts[1..])
    decreases |parts|
  {
    var n := |parts| - 1;
    if n > 0 {
      TotalFromFront(parts[..n]);
      assert parts[..n][1..] == parts[1..][..n - 1];
    }
  }

  lemma {:induction false} JoinLength(parts: seq<string>)
    requires parts != []
    ensures |Join(parts, ',')| == Total(parts) + |parts| - 1
  {
    TotalFromFront(parts);
    if |parts| > 1 { JoinLength(parts[1..]); }
  }

  lemma {:induction false} SplitLength(s: string)
    ensures |s| == Total(Split(s, ',')) + |Split(s, ',')| - 1
    decreases |s|
  {
    TotalFromFront(Split(s, ','));
    if Cut(s, ',').Some? {
      var (a, b) := Cut(s, ',').value;
      SplitLength(b);
      assert Split(s, ',')[1..] == Split(b, ',');
    }
  }

  /** A body of four parts is those parts with colons between them. */
  lemma FourParts(body: string) returns (a: string, b: string, c: string, tail: string)
    requires |SplitN(body, ':', 4)| == 4
    ensures SplitN(body, ':', 4) == [a, b, c, tail]
    ensures ':' !in a && ':' !in b && ':' !in c && body == Colon(a, Colon(b, Colon(c, tail)))
  {
    var first := Cut(body, ':').value;
    var second := Cut(first.1, ':').value;
    var third := Cut(second.1, ':').value;
    a, b, c, tail := first.0, second.0, third.0, third.1;
    OnePart(tail);
    assert SplitN(second.1, ':', 2) == [c] + SplitN(tail, ':', 1);
    assert SplitN(first.1, ':', 3) == [b] + SplitN(second.1, ':', 2);
    hide Cut;
  }

  /** What is read from a body is well formed, and prints no longer than it. */
  lemma ReadBodyIsSound(version: int, body: string, valid: string -> bool)
    requires ReadBody(version, body, valid).Success?
    ensures var i := ReadBody(version, body, valid).value;
      WellFormed(i, valid) && i.version == version <= PROTOCOL_VERSION && |Body(i)| <= |body|
  {
    var a, b, c, tail := FourParts(body);
    hide SplitN, Split, Join, ReadAddrs, AddrOK;
    var i := ReadBody(version, body, valid).value;
    ReadAddrsAreGood(Split(tail, ','), valid);
    SplitLength(tail);
    JoinLength(i.addrs);
  }

  lemma VersionPrefixIsShorter(c: string)
    requires Versioned(c).Some?
    ensures |Versioned(c).value.1| + 3 <= |c|
  {
  }

  /** Reading a code as a versioned one never gives back an invite whose printed
    * body is the code itself: the prefix has been read as something else. */
  lemma MistakenPrefixNeverReturns(i: Invite, code: string, valid: string -> bool)
    requires |code| <= |Body(i)| && Versioned(Trim(code, SPACE)).Some?
    ensures forall v :: Parsed(code, valid) != Success(i.(version := v))
  {
    TrimTrims(code, SPACE);
    var c := Trim(code, SPACE);
    VersionPrefixIsShorter(c);
    var (version, rest) := Versioned(c).value;
    if ReadBody(version, rest, valid).Success? {
      ReadBodyIsSound(version, rest, valid);
      var r := ReadBody(version, rest, valid).value;
      assert |Body(r)| < |Body(i)|;
      forall v ensures r != i.(version := v) {
        assert Body(i.(version := v)) == Body(i);
      }
    }
  }

  /** Every accepted code yields a well-formed invite of a known version, and its
    * re-encoding parses to the same invite exactly when that version is at least
    * 1: a code that says "v0:" is accepted, and cannot be printed again. */
  lemma ParseThenPrint(code: string, valid: string -> bool)
    requires Parsed(code, valid).Success?
    ensures var i := Parsed(code, valid).value;
      && WellFormed(i, valid) && 0 <= i.version <= PROTOCOL_VERSION
      && (Parsed(Encode(i), valid) == Success(i) <==> i.version >= 1)
  {
    var c := Trim(code, SPACE);
    var i := Parsed(code, valid).value;
    match Versioned(c) {
      case Some(p) => ReadBodyIsSound(p.0, p.1, valid);
      case None => ReadBodyIsSound(PROTOCOL_VERSION_LEGACY, c, valid);
    }
    if i.version >= 1 {
      PrintThenParse(i, valid);
    } else {
      ZeroIsNeverPrinted(i, valid);
    }
  }

  lemma ZeroIsNeverPrinted(i: Invite, valid: string -> bool)
    requires i.version == 0
    ensures Parsed(Encode(i), valid) != Success(i)
  {
    var code := Encode(i);
    if Versioned(Trim(code, SPACE)).Some? {
      MistakenPrefixNeverReturns(i, code, valid);
      assert i.(version := 0) == i;
    } else if Parsed(code, valid).Success? {
      ReadBodyIsSound(PROTOCOL_VERSION_LEGACY, Trim(code, SPACE), valid);
    }
  }

  // ---------- which codes are read as what ----------

  /** The pieces that say something, without the white space around them. */
  function Pieces(raws: seq<string>): seq<string> {
    if raws == [] then []
    else
      var raw := Trim(raws[0], SPACE);
      (if raw == "" then [] else [raw]) + Pieces(raws[1..])
  }

  function FirstBad(pieces: seq<string>, valid: string -> bool): Option<string> {
    if pieces == [] then None
    else if !valid(pieces[0]) then Some(pieces[0])
    else FirstBad(pieces[1..], valid)
  }

  lemma {:induction false} PiecesExtend(raws: seq<string>, raw: string)
    ensures Pieces(raws + [raw]) == Pieces(raws) + if Trim(raw, SPACE) == "" then [] else [Trim(raw, SPACE)]
  {
    if raws == [] {
      assert raws + [raw] == [raw] && [raw][1..] == [];
    } else {
      assert (raws + [raw])[0] == raws[0] && (raws + [raw])[1..] == raws[1..] + [raw];
      PiecesExtend(raws[1..], raw);
    }
  }

  lemma {:induction false} FirstBadExtends(pieces: seq<string>, more: seq<string>, valid: string -> bool)
    ensures FirstBad(pieces + more, valid)
         == if FirstBad(pieces, valid).Some? then FirstBad(pieces, valid) else FirstBad(more, valid)
    ensures FirstBad(pieces, valid) == None <==> forall p | p in pieces :: valid(p)
  {
    if pieces == [] {
      assert pieces + more == more;
    } else {
      assert (pieces + more)[0] == pieces[0] && (pieces + more)[1..] == pieces[1..] + more;
      FirstBadExtends(pieces[1..], more, valid);
      assert pieces == [pieces[0]] + pieces[1..];
    }
  }

  lemma NoPieces(valid: string -> bool)
    ensures Pieces([]) == [] && FirstBad([], valid) == None
  {
  }

  lemma FirstBadOne(piece: string, valid: string -> bool)
    ensures FirstBad([piece], valid) == if valid(piece) then None else Some(piece)
    ensures FirstBad([], valid) == None
  {
    assert [piece][1..] == [];
  }

  /** All the addresses are taken, in order, or none: the first bad one refuses the
    * code and is the one that is named. */
  lemma {:induction false} AddrsAreAllOrNone(raws: seq<string>, valid: string -> bool)
    ensures ReadAddrs(raws, valid)
         == match FirstBad(Pieces(raws), valid)
            case None => Success(Pieces(raws))
            case Some(bad) => Failure(BadAddress(bad))
  {
    hide Trim, FirstBad, Pieces, IsSpace;
    if raws == [] {
      NoPieces(valid);
    } else {
      var n := |raws| - 1;
      var raw := Trim(raws[n], SPACE);
      AddrsAreAllOrNone(raws[..n], valid);
      assert raws == raws[..n] + [raws[n]];
      PiecesExtend(raws[..n], raws[n]);
      FirstBadExtends(Pieces(raws[..n]), if raw == "" then [] else [raw], valid);
      FirstBadOne(raw, valid);
      assert Pieces(raws[..n]) + [] == Pieces(raws[..n]);
    }
  }

  /** The four parts of a body: the last one keeps its colons. */
  ghost predicate IsBody(body: string, a: string, b: string, c: string, tail: string) {
    ':' !in a && ':' !in b && ':' !in c && body == a + ":" + b + ":" + c + ":" + tail
  }

  lemma BodyIsSplit(body: string, a: string, b: string, c: string, tail: string)
    ensures IsBody(body, a, b, c, tail) <==> SplitN(body, ':', 4) == [a, b, c, tail]
  {
    hide SplitN, Cut;
    if IsBody(body, a, b, c, tail) {
      assert body == Colon(a, Colon(b, Colon(c, tail)));
      OnePart(tail);
      ColonSplits(c, tail, 2);
      ColonSplits(b, Colon(c, tail), 3);
      ColonSplits(a, Colon(b, Colon(c, tail)), 4);
    }
    if SplitN(body, ':', 4) == [a, b, c, tail] {
      var a', b', c', tail' := FourParts(body);
      assert a' == a && b' == b && c' == c && tail' == tail;
    }
  }

  lemma FourPartsOrFewer(body: string)
    ensures |SplitN(body, ':', 4)| == 4 <==> exists a, b, c, tail :: IsBody(body, a, b, c, tail)
  {
    hide SplitN, IsBody;
    if |SplitN(body, ':', 4)| == 4 {
      var a, b, c, tail := FourParts(body);
      BodyIsSplit(body, a, b, c, tail);
    }
    if a, b, c, tail :| IsBody(body, a, b, c, tail) {
      BodyIsSplit(body, a, b, c, tail);
    }
  }

  /** What becomes of a body of four parts, and of one with fewer. */
  lemma BodyIsReadExactly(version: int, body: string, a: string, b: string, c: string, tail: string,
                          valid: string -> bool)
    requires version <= PROTOCOL_VERSION && IsBody(body, a, b, c, tail)
    ensures var addrs := Pieces(Split(tail, ','));
      ReadBody(version, body, valid)
      == if a == "" || b == "" || c == "" then Failure(EmptyPart)
         else if FirstBad(addrs, valid).Some? then Failure(BadAddress(FirstBad(addrs, valid).value))
         else if addrs == [] then Failure(NoAddress)
         else Success(Invite(a, b, c, addrs, version))
  {
    hide IsBody, SplitN, ReadAddrs, Pieces, FirstBad, Split;
    BodyIsSplit(body, a, b, c, tail);
    AddrsAreAllOrNone(Split(tail, ','), valid);
  }

  lemma FewPartsHaveNoAddress(version: int, body: string, valid: string -> bool)
    requires forall a, b, c, tail :: !IsBody(body, a, b, c, tail)
    ensures ReadBody(version, body, valid)
         == Failure(if version > PROTOCOL_VERSION then FromNewerVersion(version) else NoAddress)
  {
    hide SplitN, IsBody;
    FourPartsOrFewer(body);
  }

  /** The code is a v, a machine number, a colon and a body of four parts. */
  ghost predicate HasVersion(code: string, digits: string, version: nat, body: string) {
    && code == "v" + digits + ":" + body
    && digits != "" && AllDigits(digits) && Value(digits) == version && version <= MAX_INT
    && exists a, b, c, tail :: IsBody(body, a, b, c, tail)
  }

  lemma VersionIsReadExactly(code: string, version: nat, body: string)
    ensures Versioned(code) == Some((version, body)) <==> exists digits :: HasVersion(code, digits, version, body)
  {
    hide Versioned, HasVersion;
    if digits :| HasVersion(code, digits, version, body) {
      GivenVersionIsRead(code, digits, version, body);
    }
    if Versioned(code) == Some((version, body)) {
      var digits := ReadVersionIsGiven(code, version, body);
    }
  }

  lemma GivenVersionIsRead(code: string, digits: string, version: nat, body: string)
    requires HasVersion(code, digits, version, body)
    ensures Versioned(code) == Some((version, body))
  {
    hide SplitN, IsBody, Value, Versioned;
    FourPartsOrFewer(body);
    assert code == ['v'] + Colon(digits, body);
    VersionIsRead(digits, body);
  }

  lemma ReadVersionIsGiven(code: string, version: nat, body: string) returns (digits: string)
    requires Versioned(code) == Some((version, body))
    ensures HasVersion(code, digits, version, body)
  {
    hide SplitN, IsBody, Value;
    FourPartsOrFewer(body);
    digits := Cut(code[1..], ':').value.0;
    hide Cut;
    assert code == ['v'] + code[1..];
    assert code == "v" + digits + ":" + body;
  }

  /** Which code is read as what: without the white space around it, as a code of the
    * version it names, or as one of the legacy version when it names none; a newer
    * version is refused before anything else is looked at. */
  lemma CodeIsReadExactly(code: string, valid: string -> bool)
    ensures forall digits, version: nat, body | HasVersion(Trim(code, SPACE), digits, version, body) ::
              Parsed(code, valid) == if version > PROTOCOL_VERSION then Failure(FromNewerVersion(version))
                                     else ReadBody(version, body, valid)
    ensures (forall digits, version: nat, body :: !HasVersion(Trim(code, SPACE), digits, version, body)) ==>
              Parsed(code, valid) == ReadBody(PROTOCOL_VERSION_LEGACY, Trim(code, SPACE), valid)
  {
    hide Trim, HasVersion, SplitN, Versioned;
    var c := Trim(code, SPACE);
    forall digits, version: nat, body | HasVersion(c, digits, version, body)
      ensures Versioned(c) == Some((version, body))
    {
      VersionIsReadExactly(c, version, body);
    }
    if Versioned(c).Some? { VersionIsReadExactly(c, Versioned(c).value.0, Versioned(c).value.1); }
  }

  // ---------- codes without a version ----------

  /** The community could be taken for a version: v and a machine number. */
  predicate LooksVersioned(community: string) {
    && "v" <= community && community[1..] != "" && AllDigits(community[1..])
    && Atoi(community[1..]).Some?
  }

  lemma UnversionedPrefix(i: Invite)
    requires PartOK(i.community) && PartOK(i.password) && PartOK(i.key)
    ensures Versioned(Body(i)).Some? <==> LooksVersioned(i.community) && ':' in Join(i.addrs, ',')
  {
    var b1 := Colon(i.password, Colon(i.key, Join(i.addrs, ',')));
    assert Body(i) == Colon(i.community, b1);
    PartsOfRest(i.password, i.key, Join(i.addrs, ','));
    hide Body, SplitN, Cut, Value, Join;
    if "v" <= i.community {
      assert Body(i)[1..] == Colon(i.community[1..], b1);
      assert ':' !in i.community[1..];
      ColonSplits(i.community[1..], b1, 2);
    } else {
      assert i.community[0] == Body(i)[0] != 'v';
    }
  }

  lemma PartsOfRest(p: string, k: string, j: string)
    requires ':' !in p && ':' !in k
    ensures |SplitN(Colon(p, Colon(k, j)), ':', 4)| == 4 <==> ':' in j
  {
    ColonSplits(p, Colon(k, j), 4);
    ColonSplits(k, j, 3);
    hide Colon;
  }

  /** A code printed without a version is read as the legacy invite it is, exactly
    * unless its community looks like a version and an address has a colon. */
  lemma UnversionedIsLegacy(i: Invite, valid: string -> bool)
    requires WellFormed(i, valid) && i.version == 0 && !IsSpace(i.community[0])
    ensures Parsed(Encode(i), valid) == Success(i.(version := PROTOCOL_VERSION_LEGACY))
            <==> !(LooksVersioned(i.community) && ':' in Join(i.addrs, ','))
  {
    CodeIsTrimmed(i, valid);
    UnversionedPrefix(i);
    if Versioned(Body(i)).Some? {
      MistakenPrefixNeverReturns(i, Encode(i), valid);
    } else {
      BodyIsRead(i, PROTOCOL_VERSION_LEGACY, valid);
    }
  }

  lemma PrefixedIsTrimmed(i: Invite, digits: string, valid: string -> bool)
    requires WellFormed(i, valid)
    ensures var code := ['v'] + Colon(digits, Body(i)); Trim(code, SPACE) == code
  {
    hide Trim;
    var code := ['v'] + Colon(digits, Body(i));
    JoinEndsInLast(i.addrs);
    var last := i.addrs[|i.addrs| - 1];
    assert last in i.addrs;
    assert code[|code| - 1] == last[|last| - 1];
    TrimTrims(code, SPACE);
  }

  /** For every room there is such a code: "v0:" in front of its parts is read as
    * version 0, which its own code then loses. */
  lemma ZeroIsAccepted(i: Invite, valid: string -> bool)
    requires WellFormed(i, valid) && i.version == 0 && !IsSpace(i.community[0])
    ensures Parsed(['v'] + Colon("0", Body(i)), valid) == Success(i)
    ensures Parsed(Encode(i), valid) != Success(i)
    ensures !(LooksVersioned(i.community) && ':' in Join(i.addrs, ',')) ==>
              Parsed(Encode(i), valid) == Success(i.(version := PROTOCOL_VERSION_LEGACY))
  {
    assert Value("0") == 0 by { assert "0"[..0] == ""; }
    BodySplits(i);
    PrefixedIsTrimmed(i, "0", valid);
    ZeroIsNeverPrinted(i, valid);
    UnversionedIsLegacy(i, valid);
    hide Body, SplitN, Versioned, Value, ReadBody, Trim, WellFormed, IsSpace, Colon, Encode, LooksVersioned, Join;
    VersionIsRead("0", Body(i));
    BodyIsRead(i, 0, valid);
  }

  /** What the guest makes of a room whose name looks like a version: the rest of the
    * code, read as a code of that version. A newer one is refused. */
  lemma LookalikeIsReadAsVersion(i: Invite, valid: string -> bool)
    requires WellFormed(i, valid) && i.version == 0
    requires LooksVersioned(i.community) && ':' in Join(i.addrs, ',')
    ensures var version := Value(i.community[1..]);
      var rest := Colon(i.password, Colon(i.key, Join(i.addrs, ',')));
      && Parsed(Encode(i), valid) == ReadBody(version, rest, valid)
      && (version > PROTOCOL_VERSION ==> Parsed(Encode(i), valid) == Failure(FromNewerVersion(version)))
  {
    var digits, rest := i.community[1..], Colon(i.password, Colon(i.key, Join(i.addrs, ',')));
    assert !IsSpace('v');
    CodeIsTrimmed(i, valid);
    PartsOfRest(i.password, i.key, Join(i.addrs, ','));
    assert i.community == ['v'] + digits;
    CommunityInFront(i);
    hide Body, SplitN, Versioned, Value, Trim, WellFormed, IsSpace, Colon, Join;
    VersionIsRead(digits, rest);
  }

  lemma CommunityInFront(i: Invite)
    requires "v" <= i.community
    ensures Body(i) == ['v'] + Colon(i.community[1..], Colon(i.password, Colon(i.key, Join(i.addrs, ','))))
  {
    assert i.community == ['v'] + i.community[1..];
  }

  /** And it can be another room altogether: an old room and a new one with the same
    * code, where the guest of the old one is sent to the new one. */
  lemma TwoInvitesOneCode(earlier: Invite, later: Invite, valid: string -> bool)
    requires WellFormed(earlier, valid) && earlier.version == 0
    requires WellFormed(later, valid) && 1 <= later.version <= PROTOCOL_VERSION
    requires earlier.community == ['v'] + Itoa(later.version)
    requires earlier.password == later.community && earlier.key == later.password
    requires Join(earlier.addrs, ',') == Colon(later.key, Join(later.addrs, ','))
    ensures Encode(earlier) == Encode(later)
    ensures Parsed(Encode(earlier), valid) == Success(later)
    ensures Parsed(Encode(earlier), valid) != Success(earlier.(version := PROTOCOL_VERSION_LEGACY))
  {
    PrintThenParse(later, valid);
    hide WellFormed, Join, Itoa, Parsed;
    CommunityInFront(earlier);
    assert earlier.community[1..] == Itoa(later.version);
  }
}
