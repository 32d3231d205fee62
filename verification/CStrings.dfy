/** C strings in buffers of characters (section 7.1.1 of ISO C11). */
module CStrings {

  /** The C string at the start of a buffer: everything before the first NUL. */
  function CText(buffer: seq<char>): (text: string)
    ensures |text| <= |buffer|
  {
    if buffer == [] || buffer[0] == '\0' then "" else [buffer[0]] + CText(buffer[1..])
  }

  lemma {:induction false} CTextAt(buffer: seq<char>)
    ensures var text := CText(buffer);
            buffer[..|text|] == text && '\0' !in text && (|text| < |buffer| ==> buffer[|text|] == '\0')
  {
    if buffer != [] && buffer[0] != '\0' {
      CTextAt(buffer[1..]);
    }
  }

  lemma {:induction false} CTextIs(buffer: seq<char>, text: string)
    requires |text| < |buffer| && buffer[..|text|] == text && '\0' !in text && buffer[|text|] == '\0'
    ensures CText(buffer) == text
  {
    if text != "" {
      assert buffer[0] == text[0] && text[0] in text;
      assert buffer[1..][..|text| - 1] == text[1..];
      CTextIs(buffer[1..], text[1..]);
    }
  }

  lemma {:induction false} CTextAppend(s: string, rest: string)
    requires '\0' !in s
    ensures CText(s + rest) == s + CText(rest)
  {
    if s == "" {
      assert s + rest == rest;
    } else {
      assert s[0] in s && (s + rest)[1..] == s[1..] + rest;
      CTextAppend(s[1..], rest);
    }
  }
}
