/** String operations of the Rust standard library that the connectors rely on:
    splitting on a character, joining, trimming, finding the `://` delimiter and
    printing integers in decimal. */
module Text {

  /** A character in front of the first part. */
  function Lengthen(x: char, parts: seq<string>): seq<string>
    requires parts != []
  {
    [[x] + parts[0]] + parts[1..]
  }

  /** The parts of `s` between occurrences of `c`; never empty, `""` gives one empty part. */
  function Split(s: string, c: char): (parts: seq<string>)
    ensures |parts| >= 1
    ensures forall p | p in parts :: c !in p
  {
    if s == "" then [""]
    else
      var rest := Split(s[1..], c);
      if s[0] == c then [""] + rest else Lengthen(s[0], rest)
  }

  /** The parts separated by one `c` each. */
  function Join(parts: seq<string>, c: char): string {
    if |parts| == 0 then ""
    else if |parts| == 1 then parts[0]
    else parts[0] + [c] + Join(parts[1..], c)
  }

  lemma {:induction false} JoinSplit(s: string, c: char)
    ensures Join(Split(s, c), c) == s
  {
    if s != "" {
      JoinSplit(s[1..], c);
      var rest := Split(s[1..], c);
      if s[0] == c {
        assert ([""] + rest)[1..] == rest;
      } else {
        assert ([[s[0]] + rest[0]] + rest[1..])[1..] == rest[1..];
      }
    }
  }

  /** A part free of the separator, put in front of a text. */
  lemma {:induction false} SplitPrepend(part: string, s: string, c: char)
    requires c !in part
    ensures Split(part + [c] + s, c) == [part] + Split(s, c)
    ensures Split(part, c) == [part]
  {
    if part == "" {
      assert part + [c] + s == [c] + s;
      assert ([c] + s)[1..] == s;
    } else {
      SplitPrepend(part[1..], s, c);
      assert (part + [c] + s)[1..] == part[1..] + [c] + s;
      assert [part[0]] + part[1..] == part;
    }
  }

  lemma LengthenConcat(x: char, a: seq<string>, b: seq<string>)
    requires a != []
    ensures Lengthen(x, a + b) == Lengthen(x, a) + b
  {
    assert (a + b)[1..] == a[1..] + b;
  }

  lemma ConcatThree<T>(a: seq<T>, b: seq<T>, c: seq<T>)
    ensures a + (b + c) == (a + b) + c
  {
  }

  /** Splitting at one separator, then splitting both sides. */
  lemma {:induction false} SplitConcat(a: string, b: string, c: char)
    ensures Split(a + [c] + b, c) == Split(a, c) + Split(b, c)
  {
    if a == "" {
      assert a + [c] + b == [c] + b;
      assert ([c] + b)[1..] == b;
    } else {
      var s, left, right := a + [c] + b, Split(a[1..], c), Split(b, c);
      assert s[0] == a[0] && s[1..] == a[1..] + [c] + b;
      SplitConcat(a[1..], b, c);
      LengthenConcat(a[0], left, right);
      ConcatThree([""], left, right);
    }
  }

  lemma {:induction false} SplitJoin(parts: seq<string>, c: char)
    requires |parts| >= 1
    requires forall p | p in parts :: c !in p
    ensures Split(Join(parts, c), c) == parts
  {
    SplitPrepend(parts[0], Join(parts[1..], c), c);
    if |parts| > 1 {
      SplitJoin(parts[1..], c);
    }
  }

  /** Separator-free parts are recoverable from their joined text. */
  lemma JoinInjective(a: seq<string>, b: seq<string>, c: char)
    requires |a| >= 1 && |b| >= 1
    requires forall p | p in a + b :: c !in p
    requires Join(a, c) == Join(b, c)
    ensures a == b
  {
    assert forall p | p in a :: p in a + b;
    assert forall p | p in b :: p in a + b;
    SplitJoin(a, c);
    SplitJoin(b, c);
  }

  /** `strip_prefix` succeeds. */
  predicate StartsWith(s: string, prefix: string) {
    prefix <= s
  }

  /** `://` stands at index `i` of `s`. */
  predicate DelimiterAt(s: string, i: nat) {
    i + 3 <= |s| && s[i] == ':' && s[i+1] == '/' && s[i+2] == '/'
  }

  /** `s` holds no `://`. */
  predicate DelimiterFree(s: string) {
    forall i: nat | i < |s| :: !DelimiterAt(s, i)
  }

  /** The index of the first `://` in `s`, or `|s|` when there is none. */
  function FindDelimiter(s: string): (k: nat)
    ensures k <= |s|
    ensures k < |s| ==> DelimiterAt(s, k)
    ensures forall i: nat | i < k :: !DelimiterAt(s, i)
  {
    if s == "" || DelimiterAt(s, 0) then 0
    else
      var k := FindDelimiter(s[1..]);
      assert forall i: nat | 1 <= i < |s| :: DelimiterAt(s, i) == DelimiterAt(s[1..], i - 1);
      k + 1
  }

  /** The first delimiter sits right after a delimiter-free text: `://` cannot overlap itself. */
  lemma FindDelimiterAfter(head: string, tail: string)
    requires DelimiterFree(head)
    ensures FindDelimiter(head + "://" + tail) == |head|
  {
    var s := head + "://" + tail;
    assert DelimiterAt(s, |head|);
    assert forall i: nat | i < |head| && DelimiterAt(s, i) :: DelimiterAt(head, i);
  }

  /** Unicode `White_Space`, what `str::trim` removes. */
  predicate IsWhitespace(c: char) {
    || '\U{0009}' <= c <= '\U{000D}'
    || c == ' ' || c == '\U{0085}' || c == '\U{00A0}' || c == '\U{1680}'
    || '\U{2000}' <= c <= '\U{200A}'
    || c == '\U{2028}' || c == '\U{2029}' || c == '\U{202F}' || c == '\U{205F}' || c == '\U{3000}'
  }

  /** The code points with the Unicode property `White_Space`. */
  lemma WhitespaceIs(c: char)
    ensures IsWhitespace(c) <==>
              c in {'\U{0009}', '\U{000A}', '\U{000B}', '\U{000C}', '\U{000D}', '\U{0020}', '\U{0085}', '\U{00A0}',
                    '\U{1680}', '\U{2000}', '\U{2001}', '\U{2002}', '\U{2003}', '\U{2004}', '\U{2005}', '\U{2006}',
                    '\U{2007}', '\U{2008}', '\U{2009}', '\U{200A}', '\U{2028}', '\U{2029}', '\U{202F}', '\U{205F}',
                    '\U{3000}'}
  {
    var n := c as int;
    assert 0x9 <= n <= 0xD ==> n == 0x9 || n == 0xA || n == 0xB || n == 0xC || n == 0xD;
    assert 0x2000 <= n <= 0x200A ==>
             || n == 0x2000 || n == 0x2001 || n == 0x2002 || n == 0x2003 || n == 0x2004 || n == 0x2005
             || n == 0x2006 || n == 0x2007 || n == 0x2008 || n == 0x2009 || n == 0x200A;
  }

  function TrimStart(s: string): (r: string)
    ensures |r| <= |s|
    ensures r != "" ==> !IsWhitespace(r[0])
    ensures s != "" && !IsWhitespace(s[0]) <==> s != "" && r == s
    ensures r != "" && s != "" ==> r[|r|-1] == s[|s|-1]
  {
    if s != "" && IsWhitespace(s[0]) then TrimStart(s[1..]) else s
  }

  function TrimEnd(s: string): (r: string)
    ensures |r| <= |s|
    ensures r != "" ==> !IsWhitespace(r[|r|-1])
    ensures s != "" && !IsWhitespace(s[|s|-1]) <==> s != "" && r == s
    ensures r != "" && s != "" ==> r[0] == s[0]
  {
    if s != "" && IsWhitespace(s[|s|-1]) then TrimEnd(s[..|s|-1]) else s
  }

  /** `str::trim`. */
  function Trim(s: string): string {
    TrimEnd(TrimStart(s))
  }

  /** Trimming leaves exactly the texts alone that neither start nor end in whitespace. */
  lemma TrimFixed(s: string)
    ensures |Trim(s)| <= |s|
    ensures s != "" ==> (Trim(s) == s <==> !IsWhitespace(s[0]) && !IsWhitespace(s[|s|-1]))
    ensures Trim(s) != s ==> |Trim(s)| < |s|
    ensures Trim(s) != "" ==> !IsWhitespace(Trim(s)[0]) && !IsWhitespace(Trim(s)[|Trim(s)|-1])
  {
    TrimShortens(s);
    TrimShortens(TrimStart(s));
  }

  lemma TrimShortens(s: string)
    ensures TrimStart(s) != s ==> |TrimStart(s)| < |s|
    ensures TrimEnd(s) != s ==> |TrimEnd(s)| < |s|
  {
  }

  /** Trimming the end stops at a text that does not end in whitespace. */
  lemma {:induction false} TrimEndAfter(head: string, tail: string)
    requires head != "" && !IsWhitespace(head[|head|-1])
    ensures TrimEnd(head + tail) == head + TrimEnd(tail)
  {
    if tail == "" {
      assert head + tail == head;
    } else {
      assert (head + tail)[..|head + tail|-1] == head + tail[..|tail|-1];
      TrimEndAfter(head, tail[..|tail|-1]);
    }
  }

  /** Decimal digits of a natural number, without leading zeros. */
  function Digits(n: nat): (s: string)
    ensures s != "" && forall c | c in s :: '0' <= c <= '9'
  {
    if n < 10 then ['0' + n as char] else Digits(n / 10) + ['0' + (n % 10) as char]
  }

  /** `i64::to_string`. */
  function Decimal(n: int): (s: string)
    ensures s != "" && forall c | c in s :: c == '-' || '0' <= c <= '9'
  {
    if n < 0 then "-" + Digits(-n) else Digits(n)
  }

  /** No sign but a minus, and no leading zeros. */
  lemma {:induction false} DigitsAreCanonical(n: nat)
    ensures Digits(n)[0] == '0' ==> n == 0
    ensures n == 0 ==> Digits(n) == "0"
  {
    if n >= 10 {
      DigitsAreCanonical(n / 10);
    }
  }

  lemma DecimalIsCanonical(n: int)
    ensures Decimal(n)[0] == '-' <==> n < 0
    ensures Decimal(n)[0] == '0' ==> Decimal(n) == "0"
    ensures n < 0 ==> Decimal(n) == "-" + Decimal(-n)
  {
    DigitsAreCanonical(if n < 0 then -n else n);
    var s := Digits(if n < 0 then -n else n);
    assert s[0] in s;
  }

  function ReadDigits(s: string): nat {
    if s == "" then 0
    else
      var d := s[|s|-1] as int - '0' as int;
      10 * ReadDigits(s[..|s|-1]) + (if d < 0 then 0 else d)
  }

  function ReadDecimal(s: string): int {
    if s != "" && s[0] == '-' then 0 - ReadDigits(s[1..]) else ReadDigits(s)
  }

  lemma {:induction false} ReadDigitsOfDigits(n: nat)
    ensures ReadDigits(Digits(n)) == n
  {
    if n >= 10 {
      ReadDigitsOfDigits(n / 10);
      assert Digits(n)[..|Digits(n)|-1] == Digits(n / 10);
    }
  }

  /** Every integer is recoverable from its decimal text. */
  lemma ReadDecimalOfDecimal(n: int)
    ensures ReadDecimal(Decimal(n)) == n
  {
    if n < 0 {
      ReadDigitsOfDigits(-n);
      assert Decimal(n)[1..] == Digits(-n);
    } else {
      ReadDigitsOfDigits(n);
      assert Digits(n)[0] in Digits(n);
    }
  }
}
