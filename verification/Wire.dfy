/** The text protocol between server and client: serialize_ball_list_all of
    src/server/localballmanager.c and updateBallListFromSerialized of src/client/screenballmanager.c. */
module Wire {
  import opened Arith
  import opened Ball
  import opened Color
  import opened Decimal
  import opened Owners

  // ---------- The server's text ----------

  function Comma(rest: string): string { "," + rest }

  /** One ball in the nine-field format, without the closing bar. */
  function Record(b: LogicalBall): string {
    IntText(b.id) + Comma(FixedText(b.x) + Comma(FixedText(b.y) + Comma(IntText(b.dx) + Comma(IntText(b.dy) +
    Comma(IntText(b.radius) + Comma(IntText(b.color.r as int) + Comma(IntText(b.color.g as int) +
    Comma(IntText(b.color.b as int)))))))))
  }

  const TEMP_SIZE := 256
  const BUFFER_SIZE := 8192

  /** snprintf into `temp` keeps at most 255 characters. */
  function Temp(b: LogicalBall): string {
    var t := Record(b) + "|";
    if |t| < TEMP_SIZE then t else t[..TEMP_SIZE - 1]
  }

  function Serialized(s: Balls): string {
    if s == [] then "" else Temp(s[0]) + Serialized(s[1..])
  }

  // ---------- Lengths ----------

  lemma RecordLength(b: LogicalBall)
    ensures |Record(b)| == |IntText(b.id)| + |IntText(b.x)| + |IntText(b.y)| + |IntText(b.dx)| + |IntText(b.dy)|
                           + |IntText(b.radius)| + |IntText(b.color.r as int)| + |IntText(b.color.g as int)|
                           + |IntText(b.color.b as int)| + 14
  {
  }

  lemma Powers()
    ensures Power(10, 1) == 10 && Power(10, 3) == 1000 && Power(10, 4) == 10000 && Power(10, 10) == 10000000000
  {
  }

  predicate Int32(n: int) { -0x8000_0000 <= n < 0x8000_0000 }

  /** The fields of a C ball whose coordinates are whole numbers of int range. */
  predicate Fields32(b: LogicalBall) {
    Int32(b.id) && Int32(b.x) && Int32(b.y) && Int32(b.dx) && Int32(b.dy) && Int32(b.radius)
  }

  lemma ColorLength(b: LogicalBall)
    ensures 3 <= |IntText(b.color.r as int)| + |IntText(b.color.g as int)| + |IntText(b.color.b as int)| <= 9
  {
    Powers();
    IntTextLength(b.color.r as int, 3);
    IntTextLength(b.color.g as int, 3);
    IntTextLength(b.color.b as int, 3);
  }

  /** No ball of 32-bit fields is truncated by the 256-byte temp buffer. */
  lemma NeverTruncated(b: LogicalBall)
    requires Fields32(b)
    ensures Temp(b) == Record(b) + "|"
  {
    Powers();
    RecordLength(b);
    ColorLength(b);
    IntTextLength(b.id, 10);
    IntTextLength(b.x, 10);
    IntTextLength(b.y, 10);
    IntTextLength(b.dx, 10);
    IntTextLength(b.dy, 10);
    IntTextLength(b.radius, 10);
  }

  /** The owner colours of real descriptors have a zero channel, so at most seven digits. */
  lemma OwnerColorLength(b: LogicalBall)
    requires b.color == ColorByOwner(b.owner) && b.owner >= 0
    ensures |IntText(b.color.r as int)| + |IntText(b.color.g as int)| + |IntText(b.color.b as int)| <= 7
  {
  }

  /** A ball of a run takes at most 46 characters on the wire, and at most 44 if its owner is a real
      descriptor. */
  lemma TempLength(b: LogicalBall)
    requires Sound(b) && b.radius >= 0 && 0 <= b.id < 1000
    ensures |Temp(b)| <= 46 && (b.owner >= 0 ==> |Temp(b)| <= 44)
  {
    Powers();
    RecordLength(b);
    ColorLength(b);
    if b.owner >= 0 {
      OwnerColorLength(b);
    }
    IntTextLength(b.id, 3);
    IntTextLength(b.x, 3);
    IntTextLength(b.y, 3);
    IntTextLength(b.dx, 4);
    IntTextLength(b.dy, 4);
    IntTextLength(b.radius, 3);
  }

  lemma OneMore(n: nat, k: nat)
    ensures (n + 1) * k == n * k + k
  {
  }

  lemma {:induction false} SerializedLength(s: Balls, k: nat)
    requires forall b :: b in s ==> |Temp(b)| <= k
    ensures |Serialized(s)| <= |s| * k
  {
    if s != [] {
      assert s[0] in s;
      var rest := s[1..];
      SerializedLength(rest, k);
      OneMore(|rest|, k);
    }
  }

  lemma NumbersByExample()
    ensures IntText(12) == "12" && IntText(-2) == "-2" && IntText(2) == "2" && IntText(20) == "20" && IntText(0) == "0"
    ensures IntText(255) == "255" && FixedText(345) == "345.00" && FixedText(60) == "60.00"
  {
    assert Digits(345) == Digits(34) + "5" && Digits(255) == Digits(25) + "5";
  }

  lemma SpeedsByExample()
    ensures "-2" + Comma("2" + Comma("20" + Comma("255" + Comma("255" + Comma("0"))))) == "-2,2,20,255,255,0"
  {
    assert "255" + Comma("255" + Comma("0")) == "255,255,0";
    assert "20" + Comma("255,255,0") == "20,255,255,0";
  }

  lemma PlaceByExample(tail: string)
    ensures "12" + Comma("345.00" + Comma("60.00" + Comma(tail))) == "12,345.00,60.00," + tail
  {
    assert "60.00" + Comma(tail) == "60.00," + tail;
  }

  /** The format by example: one ball of a client on descriptor 8. */
  lemma RecordExample()
    ensures Temp(LogicalBall(12, 345, 60, -2, 2, 20, 8, Color(255, 255, 0)))
            == "12,345.00,60.00," + "-2,2,20,255,255,0" + "|"
  {
    NumbersByExample();
    SpeedsByExample();
    PlaceByExample("-2,2,20,255,255,0");
    NeverTruncated(LogicalBall(12, 345, 60, -2, 2, 20, 8, Color(255, 255, 0)));
  }

  // ---------- The client's record ----------

  datatype WireBall = WireBall(id: int, x: real, y: real, dx: int, dy: int, radius: int, color: Color)

  predicate AtComma(s: string) { s != "" && s[0] == ',' }

  /** sscanf with nine conversions separated by commas: it stops at the first mismatch, and fields
      it did not reach keep whatever `l` held before. */
  function ScanId(s: string, l: WireBall): WireBall {
    match ScanInt(s)
    case None => l
    case Some((n, r)) => var m := l.(id := n); if AtComma(r) then ScanX(r[1..], m) else m
  }

  function ScanX(s: string, l: WireBall): WireBall {
    match ScanFixed(s)
    case None => l
    case Some((v, r)) => var m := l.(x := v); if AtComma(r) then ScanY(r[1..], m) else m
  }

  function ScanY(s: string, l: WireBall): WireBall {
    match ScanFixed(s)
    case None => l
    case Some((v, r)) => var m := l.(y := v); if AtComma(r) then ScanDx(r[1..], m) else m
  }

  function ScanDx(s: string, l: WireBall): WireBall {
    match ScanInt(s)
    case None => l
    case Some((n, r)) => var m := l.(dx := n); if AtComma(r) then ScanDy(r[1..], m) else m
  }

  function ScanDy(s: string, l: WireBall): WireBall {
    match ScanInt(s)
    case None => l
    case Some((n, r)) => var m := l.(dy := n); if AtComma(r) then ScanRadius(r[1..], m) else m
  }

  function ScanRadius(s: string, l: WireBall): WireBall {
    match ScanInt(s)
    case None => l
    case Some((n, r)) => var m := l.(radius := n); if AtComma(r) then ScanRed(r[1..], m) else m
  }

  function ScanRed(s: string, l: WireBall): WireBall {
    match ScanByte(s)
    case None => l
    case Some((n, r)) =>
      var m := l.(color := l.color.(r := n as byte)); if AtComma(r) then ScanGreen(r[1..], m) else m
  }

  function ScanGreen(s: string, l: WireBall): WireBall {
    match ScanByte(s)
    case None => l
    case Some((n, r)) =>
      var m := l.(color := l.color.(g := n as byte)); if AtComma(r) then ScanBlue(r[1..], m) else m
  }

  function ScanBlue(s: string, l: WireBall): WireBall {
    match ScanByte(s)
    case None => l
    case Some((n, r)) => l.(color := l.color.(b := n as byte))
  }

  /** The ball as the client knows it: everything but the owner. */
  function OnWire(b: LogicalBall): WireBall {
    WireBall(b.id, b.x as real, b.y as real, b.dx, b.dy, b.radius, b.color)
  }

  // ---------- strtok ----------

  function BarAt(s: string): (k: nat)
    ensures k <= |s| && '|' !in s[..k] && (k < |s| ==> s[k] == '|')
  {
    if s == "" || s[0] == '|' then 0 else 1 + BarAt(s[1..])
  }

  /** The maximal runs of characters other than the bar (section 7.24.5.8 of ISO C11). */
  function Tokens(s: string): seq<string>
    decreases |s|
  {
    if s == "" then []
    else if s[0] == '|' then Tokens(s[1..])
    else [s[..BarAt(s)]] + Tokens(s[BarAt(s)..])
  }

  function Joined(tokens: seq<string>): string {
    if tokens == [] then "" else tokens[0] + Joined(tokens[1..])
  }

  function WithoutBars(s: string): string {
    if s == "" then "" else if s[0] == '|' then WithoutBars(s[1..]) else [s[0]] + WithoutBars(s[1..])
  }

  lemma {:induction false} WithoutBarsSplit(s: string, k: nat)
    requires k <= |s| && '|' !in s[..k]
    ensures WithoutBars(s) == s[..k] + WithoutBars(s[k..])
  {
    if k > 0 {
      assert s[..k][0] == s[0] && s[1..][..k - 1] == s[..k][1..] && s[1..][k - 1..] == s[k..];
      WithoutBarsSplit(s[1..], k - 1);
    }
  }

  /** Tokens are never empty, hold no bar, and together are the text without its bars. */
  lemma {:induction false} TokensMean(s: string)
    ensures forall t :: t in Tokens(s) ==> t != "" && '|' !in t
    ensures Joined(Tokens(s)) == WithoutBars(s)
    decreases |s|
  {
    if s != "" {
      if s[0] == '|' {
        TokensMean(s[1..]);
      } else {
        var k := BarAt(s);
        TokensMean(s[k..]);
        WithoutBarsSplit(s, k);
        assert Tokens(s)[0] == s[..k] && Tokens(s)[1..] == Tokens(s[k..]);
      }
    }
  }

  /** strtok: the first token of `s`, if any, and the text after it. */
  function NextToken(s: string): Option<(string, string)>
    decreases |s|
  {
    if s == "" then None
    else if s[0] == '|' then NextToken(s[1..])
    else Some((s[..BarAt(s)], s[BarAt(s)..]))
  }

  lemma {:induction false} NextIsFirst(s: string)
    ensures match NextToken(s)
            case None => Tokens(s) == []
            case Some((t, rest)) => Tokens(s) == [t] + Tokens(rest) && |rest| < |s| && t != ""
    decreases |s|
  {
    if s != "" && s[0] == '|' {
      NextIsFirst(s[1..]);
    }
  }

  lemma {:induction false} BarAtAppend(t: string, rest: string)
    requires '|' !in t
    ensures BarAt(t + "|" + rest) == |t|
  {
    var s := t + "|" + rest;
    if t != "" {
      assert s[0] == t[0] && t[0] in t;
      assert s[1..] == t[1..] + "|" + rest;
      BarAtAppend(t[1..], rest);
    }
  }

  lemma TokenFirst(t: string, rest: string)
    requires t != "" && '|' !in t
    ensures Tokens(t + "|" + rest) == [t] + Tokens(rest)
  {
    var s := t + "|" + rest;
    BarAtAppend(t, rest);
    assert s[0] == t[0] && t[0] in t;
    assert s[..|t|] == t && s[|t|..] == "|" + rest && ("|" + rest)[1..] == rest;
  }

  /** A character that no printed number contains. */
  predicate Foreign(c: char) { !IsDigit(c) && c != '-' && c != '.' }

  lemma NumberChars(n: int, c: char)
    requires Foreign(c)
    ensures c !in IntText(n) && c !in FixedText(n) && IntText(n) != ""
  {
    IntTextChars(n);
    DigitsAreDigits(Abs(n));
  }

  lemma RecordChars(b: LogicalBall, c: char)
    requires Foreign(c) && c != ','
    ensures c !in Record(b) && Record(b) != ""
  {
    NumberChars(b.id, c);
    NumberChars(b.x, c);
    NumberChars(b.y, c);
    NumberChars(b.dx, c);
    NumberChars(b.dy, c);
    NumberChars(b.radius, c);
    NumberChars(b.color.r as int, c);
    NumberChars(b.color.g as int, c);
    NumberChars(b.color.b as int, c);
  }

  lemma {:induction false} SerializedChars(s: Balls, c: char)
    requires Foreign(c) && c != ',' && c != '|'
    ensures c !in Serialized(s)
  {
    if s != [] {
      RecordChars(s[0], c);
      SerializedChars(s[1..], c);
    }
  }

  // ---------- Parsing undoes printing ----------

  function AllOnWire(s: Balls): (r: seq<WireBall>)
    ensures |r| == |s|
  {
    seq(|s|, i requires 0 <= i < |s| => OnWire(s[i]))
  }

  function Records(s: Balls): (r: seq<string>)
    ensures |r| == |s| && forall i :: 0 <= i < |s| ==> r[i] == Record(s[i])
  {
    if s == [] then [] else [Record(s[0])] + Records(s[1..])
  }

  lemma SerializedFirst(s: Balls)
    requires s != [] && Fields32(s[0])
    ensures Tokens(Serialized(s)) == [Record(s[0])] + Tokens(Serialized(s[1..]))
  {
    NeverTruncated(s[0]);
    RecordChars(s[0], '|');
    TokenFirst(Record(s[0]), Serialized(s[1..]));
  }

  lemma {:induction false} TokensOfSerialized(s: Balls)
    requires forall b :: b in s ==> Fields32(b)
    ensures Tokens(Serialized(s)) == Records(s)
  {
    if s != [] {
      assert s[0] in s;
      SerializedFirst(s);
      TokensOfSerialized(s[1..]);
    }
  }

  lemma AfterComma(rest: string)
    ensures AtComma(Comma(rest)) && Comma(rest)[1..] == rest && !IsDigit(Comma(rest)[0])
  {
  }

  lemma ScanColors(c: Color, l: WireBall)
    ensures ScanRed(IntText(c.r as int) + Comma(IntText(c.g as int) + Comma(IntText(c.b as int))), l) == l.(color := c)
  {
    var t2 := IntText(c.b as int);
    var t1 := IntText(c.g as int) + Comma(t2);
    AfterComma(t1);
    AfterComma(t2);
    ScanByteText(c.r as int, Comma(t1));
    ScanByteText(c.g as int, Comma(t2));
    assert t2 + "" == t2;
    ScanByteText(c.b as int, "");
  }

  lemma ScanSpeeds(b: LogicalBall, tail: string, l: WireBall)
    ensures ScanDx(IntText(b.dx) + Comma(IntText(b.dy) + Comma(IntText(b.radius) + Comma(tail))), l)
            == ScanRed(tail, l.(dx := b.dx, dy := b.dy, radius := b.radius))
  {
    var t2 := IntText(b.radius) + Comma(tail);
    var t1 := IntText(b.dy) + Comma(t2);
    AfterComma(t1);
    AfterComma(t2);
    AfterComma(tail);
    ScanIntText(b.dx, Comma(t1));
    ScanIntText(b.dy, Comma(t2));
    ScanIntText(b.radius, Comma(tail));
  }

  lemma ScanPosition(b: LogicalBall, tail: string, l: WireBall)
    ensures ScanId(IntText(b.id) + Comma(FixedText(b.x) + Comma(FixedText(b.y) + Comma(tail))), l)
            == ScanDx(tail, l.(id := b.id, x := b.x as real, y := b.y as real))
  {
    var t2 := FixedText(b.y) + Comma(tail);
    var t1 := FixedText(b.x) + Comma(t2);
    AfterComma(t1);
    AfterComma(t2);
    AfterComma(tail);
    ScanIntText(b.id, Comma(t1));
    ScanFixedText(b.x, Comma(t2));
    ScanFixedText(b.y, Comma(tail));
  }

  /** All nine fields come back, whatever was in the variables before. */
  lemma RecordRoundTrip(b: LogicalBall, junk: WireBall)
    ensures ScanId(Record(b), junk) == OnWire(b)
  {
    var colors := IntText(b.color.r as int) + Comma(IntText(b.color.g as int) + Comma(IntText(b.color.b as int)));
    var speeds := IntText(b.dx) + Comma(IntText(b.dy) + Comma(IntText(b.radius) + Comma(colors)));
    ScanPosition(b, speeds, junk);
    ScanSpeeds(b, colors, junk.(id := b.id, x := b.x as real, y := b.y as real));
    ScanColors(b.color, junk.(id := b.id, x := b.x as real, y := b.y as real,
                              dx := b.dx, dy := b.dy, radius := b.radius));
  }

  /** The balls the client reads from the tokens of a message; `junk(i)` is what the uninitialised
      ball variable holds before record i. */
  function Parsed(tokens: seq<string>, junk: nat -> WireBall): (r: seq<WireBall>)
    ensures |r| == |tokens|
  {
    seq(|tokens|, i requires 0 <= i < |tokens| => ScanId(tokens[i], junk(i)))
  }

  lemma ParsedRecords(s: Balls, junk: nat -> WireBall)
    ensures Parsed(Records(s), junk) == AllOnWire(s)
  {
    forall i | 0 <= i < |s|
      ensures Parsed(Records(s), junk)[i] == AllOnWire(s)[i]
    {
      RecordRoundTrip(s[i], junk(i));
    }
  }

  /** The client gets the server's balls, all of them, in order. */
  lemma MessageRoundTrip(s: Balls, junk: nat -> WireBall)
    requires forall b :: b in s ==> Fields32(b)
    ensures Parsed(Tokens(Serialized(s)), junk) == AllOnWire(s)
  {
    TokensOfSerialized(s);
    ParsedRecords(s, junk);
  }
}
