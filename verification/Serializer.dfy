/** serialize_ball_list_all of src/server/localballmanager.c on its fixed buffer of characters. */
module Serializer {
  import opened Ball
  import opened BallList
  import opened CStrings
  import opened Owners
  import opened Wire

  /** strcat: finds the end, copies, terminates. */
  method StrCat(buffer: array<char>, src: string)
    requires |CText(buffer[..])| + |src| < buffer.Length && '\0' !in src
    modifies buffer
    ensures CText(buffer[..]) == old(CText(buffer[..])) + src
  {
    var end := 0;
    ghost var text := CText(buffer[..]);
    CTextAt(buffer[..]);
    assert forall j :: 0 <= j < |text| ==> buffer[..][..|text|][j] == buffer[j];
    while buffer[end] != '\0'
      invariant 0 <= end <= |text|
      decreases |text| - end
    {
      end := end + 1;
    }
    var i := 0;
    while i < |src|
      invariant 0 <= i <= |src|
      invariant buffer[..end] == text && buffer[end..end + i] == src[..i]
    {
      buffer[end + i] := src[i];
      assert buffer[end..end + i + 1] == buffer[end..end + i] + [src[i]];
      i := i + 1;
    }
    buffer[end + i] := '\0';
    assert buffer[..end + i] == buffer[..end] + buffer[end..end + i];
    CTextIs(buffer[..], text + src);
  }

  /** The text of the first `i` balls. */
  ghost function Text(s: Balls, i: nat): string
    requires i <= |s|
  {
    Serialized(s[..i])
  }

  lemma {:induction false} SerializedSplit(s: Balls, t: Balls)
    ensures Serialized(s + t) == Serialized(s) + Serialized(t)
  {
    if s == [] {
      assert s + t == t;
    } else {
      assert (s + t)[1..] == s[1..] + t;
      SerializedSplit(s[1..], t);
    }
  }

  lemma OneMoreText(s: Balls, i: nat)
    requires i < |s|
    ensures Text(s, i + 1) == Text(s, i) + Temp(s[i])
  {
    assert s[..i + 1] == s[..i] + [s[i]];
    SerializedSplit(s[..i], [s[i]]);
    assert Serialized([s[i]]) == Temp(s[i]) by {
      assert [s[i]][1..] == [];
    }
  }

  lemma TextEnds(s: Balls)
    ensures Text(s, 0) == "" && Text(s, |s|) == Serialized(s)
  {
    assert s[..0] == [] && s[..|s|] == s;
  }

  lemma TextShort(s: Balls, i: nat)
    requires i <= |s|
    ensures |Text(s, i)| <= |Serialized(s)|
  {
    assert s == s[..i] + s[i..];
    SerializedSplit(s[..i], s[i..]);
  }

  /** snprintf and strcat of ball `i`. */
  method Append(buffer: array<char>, b: LogicalBall, ghost s: Balls, ghost i: nat)
    requires i < |s| && b == s[i] && CText(buffer[..]) == Text(s, i) && |Serialized(s)| < buffer.Length
    modifies buffer
    ensures CText(buffer[..]) == Text(s, i + 1)
  {
    OneMoreText(s, i);
    TextShort(s, i + 1);
    RecordChars(b, '\0');
    StrCat(buffer, Temp(b));
  }

  /** One turn of the walk. */
  method WriteBall(m: Manager<LogicalBall>, buffer: array<char>, cur: Node<LogicalBall>, ghost s: Balls, ghost i: nat)
    returns (next: Node?<LogicalBall>)
    requires m.Valid() && m.Contents() == s && i < |s| && cur == m.nodes[i]
    requires CText(buffer[..]) == Text(s, i) && |Serialized(s)| < buffer.Length
    modifies buffer
    ensures next == At(m.nodes, i + 1) && m.Valid() && m.Contents() == s
    ensures CText(buffer[..]) == Text(s, i + 1)
  {
    m.Next(i);
    next := cur.next;
    Append(buffer, cur.data, s, i);
  }

  /** The walk over the list. The source does not check the space left, so it demands that the whole
      text and its NUL fit. */
  method WriteAll(m: Manager<LogicalBall>, buffer: array<char>, ghost s: Balls)
    requires m.Valid() && CText(buffer[..]) == "" && s == m.Contents() && |Serialized(s)| < buffer.Length
    modifies buffer
    ensures CText(buffer[..]) == Serialized(s)
    ensures m.Valid() && m.Contents() == s
  {
    var cur := m.head;
    ghost var i := 0;
    TextEnds(s);
    while cur != null
      invariant m.Valid() && m.Contents() == s && 0 <= i <= |s| && cur == At(m.nodes, i)
      invariant CText(buffer[..]) == Text(s, i)
      decreases |s| - i
    {
      cur := WriteBall(m, buffer, cur, s, i);
      i := i + 1;
    }
    assert i == |s|;
  }

  method EmptyBuffer() returns (buffer: array<char>)
    ensures fresh(buffer) && buffer.Length == BUFFER_SIZE && CText(buffer[..]) == ""
  {
    buffer := new char[BUFFER_SIZE];
    buffer[0] := '\0';
  }

  /** serialize_ball_list_all */
  method Serialize(m: Manager<LogicalBall>) returns (buffer: array<char>)
    requires m.Valid() && |Serialized(m.Contents())| < BUFFER_SIZE
    ensures fresh(buffer) && buffer.Length == BUFFER_SIZE && CText(buffer[..]) == Serialized(m.Contents())
  {
    ghost var s := m.Contents();
    buffer := EmptyBuffer();
    assert m.Contents() == s;
    WriteAll(m, buffer, s);
  }
}
