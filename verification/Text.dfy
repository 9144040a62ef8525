/** Character classes and byte lengths, as Rust's `char` and `str` define them. */
module Text {

  /** The number of bytes in the UTF-8 encoding of `s` (`str::len`). */
  function ByteLength(s: string): nat {
    if s == [] then 0 else ByteLength(s[..|s| - 1]) + CharBytes(s[|s| - 1])
  }

  function CharBytes(c: char): nat {
    var n := c as int;
    if n < 0x80 then 1 else if n < 0x800 then 2 else if n < 0x10000 then 3 else 4
  }

  /** `char::is_control`: Unicode general category Cc. */
  predicate IsControl(c: char) {
    var n := c as int;
    n < 0x20 || 0x7F <= n <= 0x9F
  }

  predicate HasControl(s: string) {
    exists i :: 0 <= i < |s| && IsControl(s[i])
  }

  predicate StartsWith(s: string, prefix: string) {
    |prefix| <= |s| && s[..|prefix|] == prefix
  }

  /** `char::is_whitespace`: the Unicode property White_Space. */
  predicate IsWhitespace(c: char) {
    var n := c as int;
    || 0x09 <= n <= 0x0D || n == 0x20 || n == 0x85 || n == 0xA0 || n == 0x1680
    || 0x2000 <= n <= 0x200A || n == 0x2028 || n == 0x2029 || n == 0x202F || n == 0x205F || n == 0x3000
  }

  predicate HasWhitespace(s: string) {
    exists i :: 0 <= i < |s| && IsWhitespace(s[i])
  }

  function TrimStart(s: string): string {
    if s != [] && IsWhitespace(s[0]) then TrimStart(s[1..]) else s
  }

  function TrimEnd(s: string): string {
    if s != [] && IsWhitespace(s[|s| - 1]) then TrimEnd(s[..|s| - 1]) else s
  }

  function Trim(s: string): string {
    TrimEnd(TrimStart(s))
  }

  function LowerChar(c: char): char {
    if 'A' <= c <= 'Z' then c - 'A' + 'a' else c
  }

  /** `to_ascii_lowercase`: only the letters A to Z change. */
  function Lower(s: string): string {
    seq(|s|, i requires 0 <= i < |s| => LowerChar(s[i]))
  }

  predicate EqualsIgnoringCase(a: string, b: string) {
    Lower(a) == Lower(b)
  }

  // ----- Splitting at a separator

  /** `str::split`: the pieces between the separators, always at least one. */
  function Split(s: string, c: char): (parts: seq<string>)
    ensures |parts| >= 1
  {
    if s == [] then
      [[]]
    else
      Attach(Split(s[..|s| - 1], c), s[|s| - 1], c)
  }

  /** One more character: a separator opens a new piece, anything else extends the last one. */
  function Attach(parts: seq<string>, x: char, c: char): (longer: seq<string>)
    requires parts != []
    ensures longer != []
  {
    if x == c then parts + [[]] else parts[..|parts| - 1] + [parts[|parts| - 1] + [x]]
  }

  lemma SplitExtend(s: string, x: char, c: char)
    ensures Split(s + [x], c) == Attach(Split(s, c), x, c)
  {
    assert (s + [x])[..|s|] == s;
  }

  lemma AttachBehind(front: seq<string>, parts: seq<string>, x: char, c: char)
    requires parts != []
    ensures Attach(front + parts, x, c) == front + Attach(parts, x, c)
  {
    if x == c {
      assert front + parts + [[]] == front + (parts + [[]]);
    } else {
      assert (front + parts)[..|front + parts| - 1] == front + parts[..|parts| - 1];
    }
  }

  function Join(parts: seq<string>, c: char): string {
    if parts == [] then
      []
    else if |parts| == 1 then
      parts[0]
    else
      Join(parts[..|parts| - 1], c) + [c] + parts[|parts| - 1]
  }

  lemma {:induction false} SplitWithoutSeparator(s: string, c: char)
    requires c !in s
    ensures Split(s, c) == [s]
  {
    if s != [] {
      SplitWithoutSeparator(s[..|s| - 1], c);
      assert s == s[..|s| - 1] + [s[|s| - 1]];
    }
  }

  lemma {:induction false} SplitConcat(a: string, b: string, c: char)
    ensures Split(a + [c] + b, c) == Split(a, c) + Split(b, c)
  {
    hide Split, Attach;
    if b == [] {
      SplitExtend(a, c, c);
      assert a + [c] + b == a + [c];
      AttachSeparator(Split(a, c), c);
      SplitWithoutSeparator(b, c);
    } else {
      var b', x := b[..|b| - 1], b[|b| - 1];
      SplitConcat(a, b', c);
      assert a + [c] + b == (a + [c] + b') + [x];
      assert b == b' + [x];
      SplitExtend(a + [c] + b', x, c);
      SplitExtend(b', x, c);
      AttachBehind(Split(a, c), Split(b', c), x, c);
    }
  }

  lemma AttachSeparator(parts: seq<string>, c: char)
    requires parts != []
    ensures Attach(parts, c, c) == parts + [[]]
  {
  }

  /** Joining pieces that do not contain the separator is undone by splitting. */
  lemma {:induction false} SplitUndoesJoin(parts: seq<string>, c: char)
    requires parts != [] && forall i :: 0 <= i < |parts| ==> c !in parts[i]
    ensures Split(Join(parts, c), c) == parts
  {
    hide Split;
    if |parts| == 1 {
      SplitWithoutSeparator(parts[0], c);
      assert parts == [parts[0]];
    } else {
      var init, last := parts[..|parts| - 1], parts[|parts| - 1];
      SplitUndoesJoin(init, c);
      SplitConcat(Join(init, c), last, c);
      SplitWithoutSeparator(last, c);
      assert parts == init + [last];
    }
  }

  lemma {:induction false} SplitParts(s: string, c: char)
    ensures forall i :: 0 <= i < |Split(s, c)| ==> c !in Split(s, c)[i]
    ensures Join(Split(s, c), c) == s
  {
    if s != [] {
      var init, last := Split(s[..|s| - 1], c), s[|s| - 1];
      SplitParts(s[..|s| - 1], c);
      assert s == s[..|s| - 1] + [last];
      SplitExtend(s[..|s| - 1], last, c);
      hide Split, Join, Attach;
      AttachJoins(init, last, c);
      AttachKeepsOut(init, last, c);
    }
  }

  lemma AttachJoins(parts: seq<string>, x: char, c: char)
    requires parts != []
    ensures Join(Attach(parts, x, c), c) == Join(parts, c) + [x]
  {
    if x == c {
      assert (parts + [[]])[..|parts|] == parts;
    } else {
      JoinExtendsLast(parts, x, c);
    }
  }

  lemma AttachKeepsOut(parts: seq<string>, x: char, c: char)
    requires parts != [] && forall i :: 0 <= i < |parts| ==> c !in parts[i]
    ensures forall i :: 0 <= i < |Attach(parts, x, c)| ==> c !in Attach(parts, x, c)[i]
  {
    hide Join;
    var longer := Attach(parts, x, c);
    forall i | 0 <= i < |longer| ensures c !in longer[i] {
      if i < |parts| - 1 {
        assert longer[i] == parts[i];
      }
    }
  }

  lemma JoinExtendsLast(parts: seq<string>, x: char, c: char)
    requires parts != []
    ensures Join(parts[..|parts| - 1] + [parts[|parts| - 1] + [x]], c) == Join(parts, c) + [x]
  {
    var longer := parts[..|parts| - 1] + [parts[|parts| - 1] + [x]];
    if |parts| > 1 {
      assert longer[..|longer| - 1] == parts[..|parts| - 1];
    }
  }
}
