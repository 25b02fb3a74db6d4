/** The text operations the packet handlers perform on raw client lines:
    String.Split on one or more separator characters, String.Replace of one
    character, Substring(0, n) truncation, String.Trim, the accumulation of
    argument tokens into a message, and the decimal TryParse family with the
    range of each integer width. */
module Text {
  import opened Wrappers

  // ---------------------------------------------------------------------
  // Splitting and joining

  /** String.Split(seps): every separator ends a token, so n separators give
      n + 1 tokens, empty ones included. */
  function Split(s: string, seps: set<char>): (r: seq<string>)
    ensures |r| >= 1
    ensures forall i :: 0 <= i < |r| ==> forall k :: 0 <= k < |r[i]| ==> r[i][k] !in seps
  {
    if s == [] then [""]
    else
      var rest := Split(s[1..], seps);
      if s[0] in seps then [""] + rest
      else [[s[0]] + rest[0]] + rest[1..]
  }

  /** A line that holds a separator splits into at least two tokens. */
  lemma {:induction false} SplitAtSeparator(s: string, seps: set<char>, k: nat)
    requires k < |s| && s[k] in seps
    ensures |Split(s, seps)| >= 2
  {
    if k > 0 {
      SplitAtSeparator(s[1..], seps, k - 1);
    }
  }

  /** String.Join with one separator character. */
  function Join(parts: seq<string>, sep: char): string
    requires |parts| >= 1
  {
    if |parts| == 1 then parts[0] else parts[0] + [sep] + Join(parts[1..], sep)
  }

  /** Joining the tokens of a split line gives the line back. */
  lemma {:induction false} SplitThenJoin(s: string, sep: char)
    ensures Join(Split(s, {sep}), sep) == s
  {
    if s != [] {
      SplitThenJoin(s[1..], sep);
      var rest := Split(s[1..], {sep});
      if s[0] != sep && |rest| > 1 {
        assert Join(rest, sep) == rest[0] + [sep] + Join(rest[1..], sep);
        assert ([s[0]] + rest[0]) + [sep] + Join(rest[1..], sep) == [s[0]] + Join(rest, sep);
      }
    }
  }

  /** A token free of separators splits to itself, and a separator after it
      starts the next token. */
  lemma {:induction false} SplitAfterToken(a: string, b: string, sep: char)
    requires sep !in a
    ensures Split(a, {sep}) == [a]
    ensures Split(a + [sep] + b, {sep}) == [a] + Split(b, {sep})
  {
    if a != [] {
      SplitAfterToken(a[1..], b, sep);
      assert (a + [sep] + b)[1..] == a[1..] + [sep] + b;
      assert [a[0]] + a[1..] == a;
    } else {
      assert a + [sep] + b == [sep] + b;
      assert ([sep] + b)[1..] == b;
    }
  }

  /** Splitting the join of separator-free tokens gives the tokens back. */
  lemma {:induction false} JoinThenSplit(parts: seq<string>, sep: char)
    requires |parts| >= 1
    requires forall i :: 0 <= i < |parts| ==> sep !in parts[i]
    ensures Split(Join(parts, sep), {sep}) == parts
  {
    if |parts| == 1 {
      SplitAfterToken(parts[0], "", sep);
    } else {
      var rest := parts[1..];
      assert forall i :: 0 <= i < |rest| ==> rest[i] == parts[i + 1];
      JoinThenSplit(rest, sep);
      assert sep !in parts[0];
      SplitAfterToken(parts[0], Join(rest, sep), sep);
      assert Join(parts, sep) == parts[0] + [sep] + Join(rest, sep);
      assert [parts[0]] + rest == parts;
    }
  }

  /** String.Replace of one character by another. */
  function Replace(s: string, from: char, to: char): (r: string)
    ensures |r| == |s|
    ensures forall k :: 0 <= k < |s| && s[k] != from ==> r[k] == s[k]
    ensures from != to ==> from !in r
  {
    if s == [] then ""
    else [if s[0] == from then to else s[0]] + Replace(s[1..], from, to)
  }

  /** Replacing '^' by ' ' and then splitting on ' ' (the friend answer at
      BasicPacketHandler.cs:921) is the same as splitting on both characters
      (the guri and revival answers at :1174 and :1478). */
  lemma {:induction false} ReplaceThenSplit(s: string, from: char, sep: char)
    ensures Split(Replace(s, from, sep), {sep}) == Split(s, {sep, from})
  {
    if s != [] {
      ReplaceThenSplit(s[1..], from, sep);
      assert Replace(s, from, sep)[1..] == Replace(s[1..], from, sep);
    }
  }

  /** Replace distributes over concatenation. */
  lemma {:induction false} ReplaceConcat(a: string, b: string, from: char, to: char)
    ensures Replace(a + b, from, to) == Replace(a, from, to) + Replace(b, from, to)
  {
    if a != [] {
      var c := if a[0] == from then to else a[0];
      ReplaceConcat(a[1..], b, from, to);
      assert (a + b)[0] == a[0] && (a + b)[1..] == a[1..] + b;
      calc {
        Replace(a + b, from, to);
        [c] + Replace(a[1..] + b, from, to);
        [c] + (Replace(a[1..], from, to) + Replace(b, from, to));
        ([c] + Replace(a[1..], from, to)) + Replace(b, from, to);
        Replace(a, from, to) + Replace(b, from, to);
      }
    } else {
      assert a + b == b;
    }
  }

  lemma ReplaceAbsent(a: string, from: char, to: char)
    requires from !in a
    ensures Replace(a, from, to) == a
  {
  }

  lemma ShowIntPlain(i: int)
    ensures ' ' !in ShowInt(i) && '^' !in ShowInt(i) && '#' !in ShowInt(i)
    ensures ShowInt(i) != ""
  {
    var s := ShowNat(if i < 0 then -i else i);
    assert forall k :: 0 <= k < |s| ==> IsDigit(s[k]);
  }

  /** One replacement pass over "<k><mid><t><sep><id>" where only the
      literal parts `mid` and `sep` can hold the replaced character. */
  lemma ReplaceAroundWords(k: string, mid: string, t: string, sep: string, id: string, from: char, to: char)
    requires from !in k && from !in t && from !in id
    ensures Replace(k + mid + t + sep + id, from, to) == k + Replace(mid, from, to) + t + Replace(sep, from, to) + id
  {
    var rm, rs := Replace(mid, from, to), Replace(sep, from, to);
    ReplaceAbsent(k, from, to);
    ReplaceAbsent(t, from, to);
    ReplaceAbsent(id, from, to);
    calc {
      Replace(k + mid + t + sep + id, from, to);
      { ReplaceConcat(k + mid + t + sep, id, from, to); }
      Replace(k + mid + t + sep, from, to) + id;
      { ReplaceConcat(k + mid + t, sep, from, to); }
      Replace(k + mid + t, from, to) + rs + id;
      { ReplaceConcat(k + mid, t, from, to); }
      Replace(k + mid, from, to) + t + rs + id;
      { ReplaceConcat(k, mid, from, to); }
      k + rm + t + rs + id;
    }
  }

  // ---------------------------------------------------------------------
  // Message assembly

  /** The tokens from index `from` on; empty when the line is shorter, as
      a `for (i = from; i < Length; i++)` loop then does nothing. */
  function Drop(tokens: seq<string>, from: nat): (r: seq<string>)
    ensures |r| == if from <= |tokens| then |tokens| - from else 0
  {
    if from <= |tokens| then tokens[from..] else []
  }

  /** Every token followed by the separator, as `message += t + sep` builds it. */
  function JoinTrailing(tokens: seq<string>, sep: string): string
  {
    if tokens == [] then "" else JoinTrailing(tokens[..|tokens| - 1], sep) + tokens[|tokens| - 1] + sep
  }

  /** Appending one more token extends the accumulated text by that token. */
  lemma {:induction false} JoinTrailingFront(t: string, tokens: seq<string>, sep: string)
    ensures JoinTrailing([t] + tokens, sep) == t + sep + JoinTrailing(tokens, sep)
    decreases |tokens|
  {
    if tokens != [] {
      var n := |tokens|;
      assert ([t] + tokens)[..n] == [t] + tokens[..n - 1];
      JoinTrailingFront(t, tokens[..n - 1], sep);
    }
  }

  /** The accumulated text of a line's tokens is the line itself followed
      by one separator: the loops at :813-816 and :1973-1976 rebuild the
      text the client typed and add a trailing space. */
  lemma {:induction false} JoinTrailingIsJoin(parts: seq<string>, sep: char)
    requires |parts| >= 1
    ensures JoinTrailing(parts, [sep]) == Join(parts, sep) + [sep]
  {
    if |parts| == 1 {
      assert parts[..0] == [];
    } else {
      JoinTrailingIsJoin(parts[1..], sep);
      JoinTrailingFront(parts[0], parts[1..], [sep]);
      assert [parts[0]] + parts[1..] == parts;
    }
  }

  /** The message loops of the handlers: start from `head`, then append each
      token from index `from` on, each followed by `sep`. */
  method AccumulateTokens(head: string, tokens: seq<string>, from: nat, sep: string) returns (text: string)
    ensures text == head + JoinTrailing(Drop(tokens, from), sep)
  {
    text := head;
    var i := from;
    while i < |tokens|
      invariant from <= i <= |tokens| || (i == from && from > |tokens|)
      invariant text == head + JoinTrailing(if i <= |tokens| then tokens[from..i] else [], sep)
    {
      assert tokens[from..i + 1][..i - from] == tokens[from..i];
      text := text + tokens[i] + sep;
      i := i + 1;
    }
    if from <= |tokens| {
      assert tokens[from..i] == tokens[from..];
    }
  }

  // ---------------------------------------------------------------------
  // Lengths in UTF-16 code units

  /** The UTF-16 code units a character takes in a .NET string: two (a
      surrogate pair) outside the Basic Multilingual Plane, one inside. */
  function Units(c: char): (u: nat)
    ensures u == 1 || u == 2
  {
    if c as int >= 0x10000 then 2 else 1
  }

  /** String.Length: the text's length in UTF-16 code units. It equals the
      number of characters exactly when every character lies in the Basic
      Multilingual Plane. */
  function Utf16Length(s: string): (n: nat)
    ensures |s| <= n <= 2 * |s|
    ensures n == |s| <==> forall i :: 0 <= i < |s| ==> s[i] as int < 0x10000
  {
    if s == [] then 0 else Units(s[0]) + Utf16Length(s[1..])
  }

  lemma {:induction false} Utf16LengthConcat(a: string, b: string)
    ensures Utf16Length(a + b) == Utf16Length(a) + Utf16Length(b)
  {
    if a == [] {
      assert a + b == b;
    } else {
      assert (a + b)[1..] == a[1..] + b;
      Utf16LengthConcat(a[1..], b);
    }
  }

  /** A slice never takes more code units than the whole text. */
  lemma Utf16LengthSlice(s: string, i: nat, r: string)
    requires i + |r| <= |s| && r == s[i..i + |r|]
    ensures Utf16Length(r) <= Utf16Length(s)
  {
    var j := i + |r|;
    assert s == s[..i] + r + s[j..];
    Utf16LengthConcat(s[..i] + r, s[j..]);
    Utf16LengthConcat(s[..i], r);
  }

  /** The number of leading characters whose code units fit in `n`: every
      longer prefix takes more than `n` units. */
  function {:induction false} FitCount(s: string, n: nat): (k: nat)
    ensures k <= |s| && Utf16Length(s[..k]) <= n
    ensures forall j :: k < j <= |s| ==> n < Utf16Length(s[..j])
  {
    if s == [] || Units(s[0]) > n then
      assert forall j :: 0 < j <= |s| ==> Utf16Length(s[..j]) == Units(s[0]) + Utf16Length(s[1..j]);
      0
    else
      var k' := FitCount(s[1..], n - Units(s[0]));
      assert forall j :: 0 < j <= |s| ==> s[..j][1..] == s[1..][..j - 1];
      1 + k'
  }

  /** Substring(0, n) when String.Length exceeds n: the longest prefix that
      fits in n code units. That is n units, or n - 1 when the cut falls
      inside a surrogate pair. */
  function Truncate(s: string, n: nat): (r: string)
    ensures Utf16Length(r) <= n && |r| <= |s|
    ensures r == s[..|r|]
    ensures Utf16Length(s) <= n <==> r == s
    ensures forall j :: |r| < j <= |s| ==> n < Utf16Length(s[..j])
    ensures r != s ==> n <= Utf16Length(r) + 1
  {
    if Utf16Length(s) > n then
      var k := FitCount(s, n);
      assert s[..|s|] == s;
      assert s[..k + 1] == s[..k] + [s[k]];
      Utf16LengthConcat(s[..k], [s[k]]);
      s[..k]
    else
      assert s[..|s|] == s;
      s
  }

  // ---------------------------------------------------------------------
  // Trimming

  /** The white space TryParse skips around a number under
      NumberStyles.Integer: U+0009 to U+000D and the space. */
  predicate IsWhite(c: char)
  {
    c == ' ' || c == '\t' || c == '\n' || c == '\r' || c == '\U{000B}' || c == '\U{000C}'
  }

  /** Char.IsWhiteSpace, the white space String.Trim removes: the
      characters above, U+0085, U+00A0, U+1680, U+2000 to U+200A, U+2028,
      U+2029, U+202F, U+205F and U+3000. */
  predicate IsWhiteSpace(c: char)
  {
    || IsWhite(c) || c == '\U{0085}' || c == '\U{00A0}' || c == '\U{1680}'
    || ('\U{2000}' <= c <= '\U{200A}') || c == '\U{2028}' || c == '\U{2029}'
    || c == '\U{202F}' || c == '\U{205F}' || c == '\U{3000}'
  }

  /** String.TrimEnd: drops the white space at the end. */
  function TrimEnd(s: string): (r: string)
    ensures |r| <= |s| && r == s[..|r|]
    ensures r != [] ==> !IsWhiteSpace(r[|r| - 1])
    ensures forall k :: |r| <= k < |s| ==> IsWhiteSpace(s[k])
  {
    if s != [] && IsWhiteSpace(s[|s| - 1]) then TrimEnd(s[..|s| - 1]) else s
  }

  /** The length of the run of white space that starts s. */
  function LeadingWhite(s: string): (n: nat)
    ensures n <= |s|
    ensures forall k :: 0 <= k < n ==> IsWhiteSpace(s[k])
    ensures n < |s| ==> !IsWhiteSpace(s[n])
  {
    if s != [] && IsWhiteSpace(s[0]) then 1 + LeadingWhite(s[1..]) else 0
  }

  /** String.Trim: the part of s between its leading and its trailing
      white space, which neither starts nor ends with white space. */
  function Trim(s: string): (r: string)
    ensures LeadingWhite(s) + |r| <= |s|
    ensures r == s[LeadingWhite(s)..LeadingWhite(s) + |r|]
    ensures forall k :: LeadingWhite(s) + |r| <= k < |s| ==> IsWhiteSpace(s[k])
    ensures r != [] ==> !IsWhiteSpace(r[0]) && !IsWhiteSpace(r[|r| - 1])
  {
    if s != [] && IsWhiteSpace(s[0]) then Trim(s[1..]) else TrimEnd(s)
  }

  /** Trimming never adds code units. */
  lemma TrimUnits(s: string)
    ensures Utf16Length(Trim(s)) <= Utf16Length(s)
  {
    Utf16LengthSlice(s, LeadingWhite(s), Trim(s));
  }

  /** Cutting keeps any prefix that fits in the limit. */
  lemma TruncateKeepsPrefix(p: string, rest: string, n: nat)
    requires Utf16Length(p) <= n
    ensures var cut := Truncate(p + rest, n); |p| <= |cut| && cut[..|p|] == p
  {
    var line := p + rest;
    assert line[..|p|] == p;
  }

  /** Trimming keeps a prefix that starts and ends with a character that is
      not white space. */
  lemma TrimKeepsPrefix(s: string, p: string)
    requires |p| <= |s| && s[..|p|] == p
    requires p != [] && !IsWhiteSpace(p[0]) && !IsWhiteSpace(p[|p| - 1])
    ensures |p| <= |Trim(s)| && Trim(s)[..|p|] == p
  {
    assert s[0] == p[0] && s[|p| - 1] == p[|p| - 1];
    var r := TrimEnd(s);
    assert Trim(s) == r;
    assert |p| <= |r|;
    assert r[..|p|] == s[..|p|];
  }

  /** Trimming twice is trimming once. */
  lemma TrimIdempotent(s: string)
    ensures Trim(Trim(s)) == Trim(s)
  {
    var r := Trim(s);
    if r != [] {
      assert TrimEnd(r) == r;
    }
  }

  /** A text that neither starts nor ends with white space comes back from
      Trim unchanged after one trailing space was appended. */
  lemma TrimPadded(x: string)
    requires x != [] && !IsWhiteSpace(x[0]) && !IsWhiteSpace(x[|x| - 1])
    ensures Trim(x + " ") == x
  {
    var p := x + " ";
    assert p[..|p| - 1] == x;
    assert TrimEnd(x) == x;
  }

  // ---------------------------------------------------------------------
  // Decimal numbers

  predicate IsDigit(c: char) { '0' <= c <= '9' }

  predicate AllDigits(s: string) { forall k :: 0 <= k < |s| ==> IsDigit(s[k]) }

  function DigitChar(d: nat): (c: char)
    requires d < 10
    ensures IsDigit(c) && (c as int) - ('0' as int) == d
  {
    (('0' as int) + d) as char
  }

  /** The value of a string of decimal digits, most significant first. */
  function DigitsValue(s: string): nat
    requires AllDigits(s)
  {
    if s == [] then 0 else 10 * DigitsValue(s[..|s| - 1]) + ((s[|s| - 1] as int) - ('0' as int))
  }

  /** The decimal text of a natural number, as ToString() and string
      interpolation write it. */
  function ShowNat(n: nat): (r: string)
    ensures r != [] && AllDigits(r)
  {
    if n < 10 then [DigitChar(n)] else ShowNat(n / 10) + [DigitChar(n % 10)]
  }

  function ShowInt(i: int): (r: string)
    ensures r != []
  {
    if i < 0 then "-" + ShowNat(-i) else ShowNat(i)
  }

  /** Number parsing as Int64.TryParse with the default style does it:
      optional white space, an optional sign, one or more decimal digits,
      optional white space. */
  function ParseInteger(s: string): Option<int>
  {
    if s != [] && IsWhite(s[0]) then ParseInteger(s[1..])
    else if s != [] && IsWhite(s[|s| - 1]) then ParseInteger(s[..|s| - 1])
    else if s == [] then None
    else
      var digits := if s[0] == '-' || s[0] == '+' then s[1..] else s;
      if digits == [] || !AllDigits(digits) then None
      else Some(if s[0] == '-' then -(DigitsValue(digits) as int) else DigitsValue(digits))
  }

  /** TryParse into a type whose values range over lo..hi. */
  function ParseInRange(s: string, lo: int, hi: int): (r: Option<int>)
    ensures r.Some? ==> lo <= r.value <= hi && ParseInteger(s) == r
  {
    match ParseInteger(s)
    case Some(v) => if lo <= v <= hi then Some(v) else None
    case None => None
  }

  const ShortMin := -32768
  const ShortMax := 32767
  const IntMin := -2147483648
  const IntMax := 2147483647
  const LongMin := -9223372036854775808
  const LongMax := 9223372036854775807

  function ParseByte(s: string): Option<int> { ParseInRange(s, 0, 255) }
  function ParseShort(s: string): Option<int> { ParseInRange(s, ShortMin, ShortMax) }
  function ParseInt(s: string): Option<int> { ParseInRange(s, IntMin, IntMax) }
  function ParseLong(s: string): Option<int> { ParseInRange(s, LongMin, LongMax) }

  /** short.TryParse(t, out v) leaves v at 0 when it fails. */
  function ParseShortOrZero(s: string): (v: int)
    ensures ShortMin <= v <= ShortMax
  {
    match ParseShort(s)
    case Some(v) => v
    case None => 0
  }

  /** A 32-bit integer cast to short keeps its low 16 bits. */
  function ToShort(i: int): (r: int)
    ensures ShortMin <= r <= ShortMax
    ensures ShortMin <= i <= ShortMax ==> r == i
    ensures (r - i) % 65536 == 0
  {
    (i - ShortMin) % 65536 + ShortMin
  }

  lemma {:induction false} DigitsOfShowNat(n: nat)
    ensures DigitsValue(ShowNat(n)) == n
  {
    if n >= 10 {
      DigitsOfShowNat(n / 10);
      var s := ShowNat(n);
      assert s[..|s| - 1] == ShowNat(n / 10);
    }
  }

  /** The text of a number parses back to that number. */
  lemma ParseShowInt(i: int)
    ensures ParseInteger(ShowInt(i)) == Some(i)
  {
    var s := ShowInt(i);
    assert !IsWhite(s[0]) && !IsWhite(s[|s| - 1]);
    DigitsOfShowNat(if i < 0 then -i else i);
    if i < 0 {
      assert s[1..] == ShowNat(-i);
    }
  }

  /** The same in a bounded integer type. */
  lemma ParseShowInRange(i: int, lo: int, hi: int)
    requires lo <= i <= hi
    ensures ParseInRange(ShowInt(i), lo, hi) == Some(i)
  {
    ParseShowInt(i);
  }
}
