/**
  The trimming of embedding texts on both sides of the socket: `trimEmbedText` on Go's UTF-8 bytes
  (internal/embedding/client.go) and `go_trim_embed_text` on Python's code points (ai_service/app/protocol.py).
 */
module EmbedTrim {
  import opened Bytes
  import opened Trimming

  /** Space, tab, line feed, carriage return. */
  predicate IsBlankByte(b: byte) {
    b == 0x20 || b == 0x09 || b == 0x0A || b == 0x0D
  }

  predicate IsBlankChar(c: char) {
    c == ' ' || c == '\t' || c == '\n' || c == '\r'
  }

  /** The Go loops: the first looks at the byte in its guard, the second in its body. */
  method TrimEmbedText(text: Bytes) returns (s: Bytes)
    ensures s == Trim(text, IsBlankByte)
  {
    s := text;
    while |s| > 0 && IsBlankByte(s[0])
      invariant TrimLeft(s, IsBlankByte) == TrimLeft(text, IsBlankByte)
    {
      s := s[1..];
    }
    while |s| > 0
      invariant TrimRight(s, IsBlankByte) == Trim(text, IsBlankByte)
    {
      var last := s[|s| - 1];
      if !IsBlankByte(last) {
        break;
      }
      s := s[..|s| - 1];
    }
  }

  /** The Python loops. */
  method GoTrimEmbedText(text: string) returns (s: string)
    ensures s == Trim(text, IsBlankChar)
  {
    s := text;
    while |s| > 0 && s[0] in " \t\n\r"
      invariant TrimLeft(s, IsBlankChar) == TrimLeft(text, IsBlankChar)
    {
      s := s[1..];
    }
    while |s| > 0 && s[|s| - 1] in " \t\n\r"
      invariant TrimRight(s, IsBlankChar) == Trim(text, IsBlankChar)
    {
      s := s[..|s| - 1];
    }
  }

  /** A code point is blank exactly when its first byte is, and exactly when its last byte is. */
  lemma BlankEnds(c: char)
    ensures IsBlankByte(EncodeChar(c)[0]) <==> IsBlankChar(c)
    ensures IsBlankByte(EncodeChar(c)[|EncodeChar(c)| - 1]) <==> IsBlankChar(c)
    ensures IsBlankChar(c) ==> |EncodeChar(c)| == 1
  {
  }

  lemma {:induction false} EncodedBlanks(s: string)
    requires All(s, IsBlankChar)
    ensures All(Encode(s), IsBlankByte)
  {
    if s != [] {
      BlankEnds(s[0]);
      EncodedBlanks(s[1..]);
    }
  }

  lemma EncodedEnds(s: string)
    requires s != []
    ensures Encode(s) != []
    ensures IsBlankByte(Encode(s)[0]) <==> IsBlankChar(s[0])
    ensures IsBlankByte(Encode(s)[|Encode(s)| - 1]) <==> IsBlankChar(s[|s| - 1])
  {
    hide Encode, EncodeChar, IsBlankByte, IsBlankChar;
    var n := |s| - 1;
    BlankEnds(s[0]);
    BlankEnds(s[n]);
    EncodeFirst(s);
    EncodeLast(s);
  }

  lemma EncodeFirst(s: string)
    requires s != []
    ensures Encode(s) == EncodeChar(s[0]) + Encode(s[1..])
  {
  }

  lemma EncodeLast(s: string)
    requires s != []
    ensures Encode(s) == Encode(s[..|s| - 1]) + EncodeChar(s[|s| - 1])
  {
    hide EncodeChar;
    var c := s[|s| - 1];
    assert s == s[..|s| - 1] + [c];
    EncodeConcat(s[..|s| - 1], [c]);
    assert Encode([c]) == EncodeChar(c) + [];
  }

  /** Encoding and then trimming the bytes is trimming the code points and then encoding, for every string. */
  lemma TrimsAgree(s: string)
    ensures Trim(Encode(s), IsBlankByte) == Encode(Trim(s, IsBlankChar))
  {
    hide EncodeChar;
    var l, r := TrimCuts(s, IsBlankChar);
    var t := Trim(s, IsBlankChar);
    EncodeConcat(l + t, r);
    EncodeConcat(l, t);
    EncodedBlanks(l);
    EncodedBlanks(r);
    if t != [] {
      EncodedEnds(t);
    }
    CutIsTrim(Encode(s), IsBlankByte, Encode(l), Encode(t), Encode(r));
  }

  /** So the client refuses a text as empty exactly when the server would. */
  lemma EmptyTogether(s: string)
    ensures Trim(Encode(s), IsBlankByte) == [] <==> Trim(s, IsBlankChar) == []
  {
    TrimsAgree(s);
    if Trim(s, IsBlankChar) != [] {
      EncodedEnds(Trim(s, IsBlankChar));
    }
  }

  /** Trimming once more changes nothing, on either side; what the client sends is what the server embeds. */
  lemma TrimmedOnceIsEnough(s: string)
    ensures Trim(Trim(Encode(s), IsBlankByte), IsBlankByte) == Trim(Encode(s), IsBlankByte)
    ensures Trim(Trim(s, IsBlankChar), IsBlankChar) == Trim(s, IsBlankChar)
  {
    TrimIdempotent(Encode(s), IsBlankByte);
    TrimIdempotent(s, IsBlankChar);
  }
}
