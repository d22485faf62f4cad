// The string functions of the Go standard library that the driver relies on,
// over ASCII text: strings.Split, Join, Cut, Contains, Trim, TrimSpace,
// strconv.Itoa and strconv.Atoi.
module Text {
  import opened Wrappers

  // Splitting and joining

  function Split(s: string, sep: char): (parts: seq<string>)
    ensures |parts| > 0
    ensures forall part | part in parts :: sep !in part
  {
    if s == "" then [""]
    else
      var rest := Split(s[1..], sep);
      if s[0] == sep then [""] + rest else [[s[0]] + rest[0]] + rest[1..]
  }

  function Join(parts: seq<string>, sep: string): string
  {
    if |parts| == 0 then ""
    else if |parts| == 1 then parts[0]
    else parts[0] + sep + Join(parts[1..], sep)
  }

  // Joining what Split produced gives the text back.
  lemma {:induction false} JoinSplit(s: string, sep: char)
    ensures Join(Split(s, sep), [sep]) == s
  {
    if s != "" {
      JoinSplit(s[1..], sep);
      var rest := Split(s[1..], sep);
      if s[0] == sep {
        assert Split(s, sep)[1..] == rest;
      } else if |rest| > 1 {
        assert Split(s, sep)[1..] == rest[1..];
      }
    }
  }

  // A separator cuts a text into two texts that split independently.
  lemma {:induction false} SplitConcat(a: string, b: string, sep: char)
    ensures Split(a + [sep] + b, sep) == Split(a, sep) + Split(b, sep)
  {
    if a == "" {
      assert a + [sep] + b == [sep] + b;
      assert ([sep] + b)[1..] == b;
    } else {
      var s := a[1..] + [sep] + b;
      SplitConcat(a[1..], b, sep);
      assert a == [a[0]] + a[1..];
      assert a + [sep] + b == [a[0]] + s;
      SplitPrepend(a[0], s, sep);
      SplitPrepend(a[0], a[1..], sep);
      SplicedTail(Split(a[1..], sep), Split(b, sep));
    }
  }

  function PrependTo(c: char, parts: seq<string>, sep: char): seq<string>
    requires |parts| > 0
  {
    if c == sep then [""] + parts else [[c] + parts[0]] + parts[1..]
  }

  lemma SplitPrepend(c: char, s: string, sep: char)
    ensures Split([c] + s, sep) == PrependTo(c, Split(s, sep), sep)
  {
    assert ([c] + s)[1..] == s;
  }

  lemma SplicedTail(a: seq<string>, b: seq<string>)
    requires |a| > 0
    ensures forall c, sep :: PrependTo(c, a + b, sep) == PrependTo(c, a, sep) + b
  {
    forall c, sep ensures PrependTo(c, a + b, sep) == PrependTo(c, a, sep) + b {
      assert (a + b)[1..] == a[1..] + b;
    }
  }

  lemma {:induction false} SplitWithoutSeparator(s: string, sep: char)
    requires sep !in s
    ensures Split(s, sep) == [s]
  {
    if s != "" {
      SplitWithoutSeparator(s[1..], sep);
      assert [s[0]] + s[1..] == s;
    }
  }

  // The parts of all texts, in order.
  function Tokens(texts: seq<string>, sep: char): seq<string> {
    if texts == [] then [] else Split(texts[0], sep) + Tokens(texts[1..], sep)
  }

  lemma {:induction false} TokensInTwo(a: seq<string>, b: seq<string>, sep: char)
    ensures Tokens(a + b, sep) == Tokens(a, sep) + Tokens(b, sep)
  {
    if a == [] {
      assert a + b == b;
    } else {
      TokensInTwo(a[1..], b, sep);
      assert (a + b)[1..] == a[1..] + b;
    }
  }

  lemma TokensFrom(texts: seq<string>, k: nat, sep: char)
    requires k < |texts|
    ensures Tokens(texts[k..], sep) == Split(texts[k], sep) + Tokens(texts[k + 1..], sep)
  {
    assert texts[k..][1..] == texts[k + 1..];
  }

  lemma {:induction false} TokensAvoid(texts: seq<string>, sep: char)
    ensures forall token | token in Tokens(texts, sep) :: sep !in token
  {
    if texts != [] {
      TokensAvoid(texts[1..], sep);
    }
  }

  // Splitting what Join produced gives all parts of the joined texts.
  lemma {:induction false} SplitJoinTokens(texts: seq<string>, sep: char)
    requires texts != []
    ensures Split(Join(texts, [sep]), sep) == Tokens(texts, sep)
  {
    if |texts| > 1 {
      SplitConcat(texts[0], Join(texts[1..], [sep]), sep);
      SplitJoinTokens(texts[1..], sep);
    }
  }

  lemma {:induction false} TokensWithoutSeparator(texts: seq<string>, sep: char)
    requires forall text | text in texts :: sep !in text
    ensures Tokens(texts, sep) == texts
  {
    if texts != [] {
      SplitWithoutSeparator(texts[0], sep);
      TokensWithoutSeparator(texts[1..], sep);
      assert texts == [texts[0]] + texts[1..];
    }
  }

  // In particular it gives back parts that do not hold the separator.
  lemma SplitJoin(parts: seq<string>, sep: char)
    requires |parts| > 0
    requires forall part | part in parts :: sep !in part
    ensures Split(Join(parts, [sep]), sep) == parts
  {
    SplitJoinTokens(parts, sep);
    TokensWithoutSeparator(parts, sep);
  }

  lemma {:induction false} JoinAvoids(parts: seq<string>, sep: string, c: char)
    requires c !in sep
    requires forall part | part in parts :: c !in part
    ensures c !in Join(parts, sep)
  {
    if |parts| > 1 {
      JoinAvoids(parts[1..], sep, c);
    }
  }

  // Searching

  predicate Contains(s: string, sub: string) {
    sub <= s || (s != "" && Contains(s[1..], sub))
  }

  lemma {:induction false} ContainsPrepended(a: string, s: string, sub: string)
    requires Contains(s, sub)
    ensures Contains(a + s, sub)
  {
    if a == "" {
      assert a + s == s;
    } else {
      ContainsPrepended(a[1..], s, sub);
      assert (a + s)[1..] == a[1..] + s;
    }
  }

  lemma {:induction false} ContainsPrefixOf(s: string, t: string, sub: string)
    requires s <= t && Contains(s, sub)
    ensures Contains(t, sub)
  {
    if !(sub <= s) {
      ContainsPrefixOf(s[1..], t[1..], sub);
    }
  }

  // A text contains each of its separated parts.
  lemma {:induction false} PartIsContained(s: string, sep: char, part: string)
    requires part in Split(s, sep)
    ensures Contains(s, part)
    ensures Split(s, sep)[0] <= s
  {
    if s != "" {
      var rest := Split(s[1..], sep);
      PartIsContained(s[1..], sep, rest[0]);
      if part == Split(s, sep)[0] {
      } else {
        assert part in rest;
        PartIsContained(s[1..], sep, part);
        ContainsPrepended([s[0]], s[1..], part);
        assert s == [s[0]] + s[1..];
      }
    }
  }

  // The text before the first occurrence of sep, if there is one.
  function CutBefore(s: string, sep: string): Option<string>
  {
    if sep <= s then Some("")
    else if s == "" then None
    else
      match CutBefore(s[1..], sep)
      case None => None
      case Some(rest) => Some([s[0]] + rest)
  }

  // What is cut off starts with the first occurrence of sep.
  lemma {:induction false} CutIsFirst(s: string, sep: string)
    ensures match CutBefore(s, sep)
            case None => !Contains(s, sep)
            case Some(before) =>
              before + sep <= s && forall i | 0 <= i < |before| :: !(sep <= s[i..])
  {
    if !(sep <= s) && s != "" {
      CutIsFirst(s[1..], sep);
      if CutBefore(s[1..], sep).Some? {
        var rest := CutBefore(s[1..], sep).value;
        assert [s[0]] + s[1..] == s;
        assert [s[0]] + rest + sep == [s[0]] + (rest + sep);
        forall i | 0 <= i < |[s[0]] + rest| ensures !(sep <= s[i..]) {
          assert i > 0 ==> s[i..] == s[1..][i - 1..];
        }
      }
    }
  }

  lemma {:induction false} CutAvoids(s: string, sep: string, c: char)
    requires c !in s && CutBefore(s, sep).Some?
    ensures c !in CutBefore(s, sep).value
  {
    if !(sep <= s) {
      CutAvoids(s[1..], sep, c);
    }
  }

  // Trimming

  function TrimLeft(s: string, cutset: set<char>): string {
    if s != "" && s[0] in cutset then TrimLeft(s[1..], cutset) else s
  }

  function TrimRight(s: string, cutset: set<char>): string {
    if s != "" && s[|s| - 1] in cutset then TrimRight(s[..|s| - 1], cutset) else s
  }

  function Trim(s: string, cutset: set<char>): string {
    TrimRight(TrimLeft(s, cutset), cutset)
  }

  const WHITESPACE: set<char> := {' ', '\t', '\n', '\r', '\U{000B}', '\U{000C}'}

  function TrimSpace(s: string): string {
    Trim(s, WHITESPACE)
  }

  // Exactly the characters of the cutset at both ends are trimmed.
  lemma TrimCutsEnds(s: string, cutset: set<char>)
    ensures exists left, right ::
              && s == left + Trim(s, cutset) + right
              && (forall c | c in left + right :: c in cutset)
              && (Trim(s, cutset) != "" ==>
                    Trim(s, cutset)[0] !in cutset && Trim(s, cutset)[|Trim(s, cutset)| - 1] !in cutset)
  {
    var t := TrimLeft(s, cutset);
    var left := TrimLeftCuts(s, cutset);
    var right := TrimRightCuts(t, cutset);
    assert s == left + (Trim(s, cutset) + right) == left + Trim(s, cutset) + right;
  }

  lemma {:induction false} TrimLeftCuts(s: string, cutset: set<char>) returns (left: string)
    ensures s == left + TrimLeft(s, cutset) && forall c | c in left :: c in cutset
    ensures TrimLeft(s, cutset) != "" ==> TrimLeft(s, cutset)[0] !in cutset
  {
    left := "";
    if s != "" && s[0] in cutset {
      left := TrimLeftCuts(s[1..], cutset);
      left := [s[0]] + left;
      assert s == [s[0]] + s[1..];
    }
  }

  lemma {:induction false} TrimRightCuts(s: string, cutset: set<char>) returns (right: string)
    ensures s == TrimRight(s, cutset) + right && forall c | c in right :: c in cutset
    ensures TrimRight(s, cutset) != "" ==>
              TrimRight(s, cutset)[0] == s[0] && TrimRight(s, cutset)[|TrimRight(s, cutset)| - 1] !in cutset
  {
    right := "";
    if s != "" && s[|s| - 1] in cutset {
      right := TrimRightCuts(s[..|s| - 1], cutset);
      right := right + [s[|s| - 1]];
      assert s == s[..|s| - 1] + [s[|s| - 1]];
    }
  }

  lemma {:induction false} TrimLeftAvoids(s: string, cutset: set<char>, c: char)
    requires c !in s
    ensures c !in TrimLeft(s, cutset)
  {
    if s != "" && s[0] in cutset {
      TrimLeftAvoids(s[1..], cutset, c);
    }
  }

  lemma {:induction false} TrimRightAvoids(s: string, cutset: set<char>, c: char)
    requires c !in s
    ensures c !in TrimRight(s, cutset)
  {
    if s != "" && s[|s| - 1] in cutset {
      TrimRightAvoids(s[..|s| - 1], cutset, c);
    }
  }

  lemma TrimAvoids(s: string, cutset: set<char>, c: char)
    requires c !in s
    ensures c !in Trim(s, cutset)
  {
    TrimLeftAvoids(s, cutset, c);
    TrimRightAvoids(TrimLeft(s, cutset), cutset, c);
  }

  // Decimal integers, within Go's 64-bit int

  const MIN_INT: int := -0x8000_0000_0000_0000
  const MAX_INT: int := 0x7fff_ffff_ffff_ffff

  predicate IsInt(n: int) {
    MIN_INT <= n <= MAX_INT
  }

  predicate IsDigit(c: char) {
    '0' <= c <= '9'
  }

  predicate AllDigits(s: string) {
    s != "" && forall c | c in s :: IsDigit(c)
  }

  function Digit(d: nat): (c: char)
    requires d < 10
    ensures IsDigit(c) && c as int - '0' as int == d
  {
    '0' + d as char
  }

  function Digits(n: nat): (s: string)
    ensures AllDigits(s)
  {
    if n < 10 then [Digit(n)] else Digits(n / 10) + [Digit(n % 10)]
  }

  function Value(s: string): nat
    requires forall c | c in s :: IsDigit(c)
  {
    if s == "" then 0
    else
      assert IsDigit(s[|s| - 1]);
      Value(s[..|s| - 1]) * 10 + (s[|s| - 1] as int - '0' as int)
  }

  function Itoa(n: int): string {
    if n < 0 then "-" + Digits(-n) else Digits(n)
  }

  // None stands for both syntax and range errors.
  function Atoi(s: string): (n: Option<int>)
    ensures n.Some? ==> IsInt(n.value)
  {
    var body := if s != "" && s[0] in "+-" then s[1..] else s;
    if !AllDigits(body) then None
    else
      var magnitude: int := Value(body);
      var n := if s[0] == '-' then -magnitude else magnitude;
      if IsInt(n) then Some(n) else None
  }

  lemma {:induction false} ValueOfDigits(n: nat)
    ensures Value(Digits(n)) == n
  {
    if n >= 10 {
      ValueOfDigits(n / 10);
      var s := Digits(n);
      assert s[..|s| - 1] == Digits(n / 10);
    }
  }

  lemma AtoiItoa(n: int)
    requires IsInt(n)
    ensures Atoi(Itoa(n)) == Some(n)
  {
    if n < 0 {
      ValueOfDigits(-n);
      assert Itoa(n)[1..] == Digits(-n);
    } else {
      ValueOfDigits(n);
      var s := Digits(n);
      assert s[0] in s;
    }
  }

  // Exactly the accepted integers: digits with or without a sign, leading zeros
  // included, whose value is in range.
  lemma AcceptedIntegers(s: string, n: int)
    ensures Atoi(s) == Some(n) <==>
            exists digits: string ::
              && AllDigits(digits) && IsInt(n)
              && ((s in [digits, "+" + digits] && n == Value(digits)) || (s == "-" + digits && n + Value(digits) == 0))
  {
    if Atoi(s) == Some(n) {
      var digits := if s[0] in "+-" then s[1..] else s;
      assert s == digits || s == [s[0]] + digits;
    }
    forall digits: string | AllDigits(digits) && IsInt(n)
                            && ((s in [digits, "+" + digits] && n == Value(digits))
                                || (s == "-" + digits && n + Value(digits) == 0))
      ensures Atoi(s) == Some(n)
    {
      assert digits[0] in digits;
      assert s != digits ==> s[1..] == digits;
    }
  }

  // Printed integers are non-empty and hold only digits and the minus sign.
  lemma ItoaCharacters(n: int)
    ensures Itoa(n) != ""
    ensures forall c | c in Itoa(n) :: IsDigit(c) || c == '-'
  {
  }

  lemma TrimOfOthers(s: string, cutset: set<char>)
    requires forall c | c in s :: c !in cutset
    ensures Trim(s, cutset) == s
  {
  }

  lemma TrimSpaceOfSolid(s: string)
    requires forall c | c in s :: c !in WHITESPACE
    ensures TrimSpace(s) == s
  {
  }

  // Sorting, byte by byte

  predicate Before(a: string, b: string) {
    if a == "" then b != ""
    else b != "" && (a[0] < b[0] || (a[0] == b[0] && Before(a[1..], b[1..])))
  }

  lemma {:induction false} BeforeIsTotal(a: string, b: string)
    ensures a == b || Before(a, b) || Before(b, a)
    ensures !(Before(a, b) && Before(b, a)) && !Before(a, a)
    decreases a
  {
    if a != "" && b != "" {
      BeforeIsTotal(a[1..], b[1..]);
      BeforeIsTotal(a[1..], a[1..]);
      assert a == [a[0]] + a[1..] && b == [b[0]] + b[1..];
    } else if a != "" {
      BeforeIsTotal(a[1..], a[1..]);
    }
  }

  lemma {:induction false} BeforeIsTransitive(a: string, b: string, c: string)
    requires Before(a, b) && Before(b, c)
    ensures Before(a, c)
    decreases a
  {
    if a != "" && a[0] == b[0] == c[0] {
      BeforeIsTransitive(a[1..], b[1..], c[1..]);
    }
  }

  predicate Sorted(texts: seq<string>) {
    forall i, j | 0 <= i < j < |texts| :: Before(texts[i], texts[j])
  }

  // Puts one more text into its place.
  method InsertText(sorted: seq<string>, text: string) returns (extended: seq<string>)
    requires Sorted(sorted) && text !in sorted
    ensures Sorted(extended)
    ensures forall other :: other in extended <==> other in sorted || other == text
  {
    var i := 0;
    while i < |sorted| && Before(sorted[i], text)
      invariant i <= |sorted|
      invariant forall k | 0 <= k < i :: Before(sorted[k], text)
    {
      i := i + 1;
    }
    extended := sorted[..i] + [text] + sorted[i..];
    TextInserted(sorted, i, text);
  }

  lemma TextInserted(sorted: seq<string>, i: nat, text: string)
    requires Sorted(sorted) && text !in sorted && i <= |sorted|
    requires forall k | 0 <= k < i :: Before(sorted[k], text)
    requires i < |sorted| ==> !Before(sorted[i], text)
    ensures Sorted(sorted[..i] + [text] + sorted[i..])
    ensures forall other :: other in sorted[..i] + [text] + sorted[i..] <==> other in sorted || other == text
  {
    hide Before;
    var extended := sorted[..i] + [text] + sorted[i..];
    assert sorted == sorted[..i] + sorted[i..];
    if i < |sorted| {
      BeforeIsTotal(sorted[i], text);
      assert sorted[i] in sorted;
    }
    forall j, k | 0 <= j < k < |extended| ensures Before(extended[j], extended[k]) {
      if j == i && k > i + 1 {
        BeforeIsTransitive(text, sorted[i], sorted[k - 1]);
      } else if j < i && k > i {
        assert extended[k] == sorted[k - 1];
      }
    }
  }

  // A sorted listing is determined by what it lists.
  lemma {:induction false} SortedIsUnique(a: seq<string>, b: seq<string>)
    requires Sorted(a) && Sorted(b) && forall text :: text in a <==> text in b
    ensures a == b
    decreases a
  {
    assert (a != [] ==> a[0] in a) && (b != [] ==> b[0] in b);
    if a != [] && b != [] {
      BeforeIsTotal(a[0], b[0]);
      forall text ensures text in a[1..] <==> text in b[1..] {
        RestIsMember(a, text);
        RestIsMember(b, text);
      }
      SortedIsUnique(a[1..], b[1..]);
      assert a == [a[0]] + a[1..] && b == [b[0]] + b[1..];
    }
  }

  lemma RestIsMember(a: seq<string>, text: string)
    requires a != [] && Sorted(a)
    ensures text in a[1..] <==> text in a && text != a[0]
  {
    hide Before;
    BeforeIsTotal(a[0], a[0]);
    assert a == [a[0]] + a[1..];
  }
}
