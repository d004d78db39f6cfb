/** np1/rel/detail/helper.hpp: comparing and hashing the text of one field by the type of its heading.
    A byte is a character; only the sign of a comparison is used. */
module Compare {
  /** The kinds of key a compare_spec is built for here. */
  datatype Kind = StringKey | IStringKey | UintKey | IntKey

  function Sign(x: int): int {
    if x < 0 then -1 else if x > 0 then 1 else 0
  }

  /** memcmp sees unsigned bytes, a plain char is signed. */
  function Code(c: char): int { c as int }

  function SignedCode(c: char): int {
    if 128 <= c as int < 256 then c as int - 256 else c as int
  }

  function Codes(s: string): (r: seq<int>)
    ensures |r| == |s|
  {
    seq(|s|, i requires 0 <= i < |s| => Code(s[i]))
  }

  /** The reference order: lexicographic, a prefix before what it is a prefix of. */
  function Lex(a: seq<int>, b: seq<int>): int {
    if a == [] then (if b == [] then 0 else -1)
    else if b == [] then 1
    else if a[0] != b[0] then Sign(a[0] - b[0])
    else Lex(a[1..], b[1..])
  }

  lemma {:induction false} LexIsOrder(a: seq<int>, b: seq<int>)
    ensures Lex(a, b) == -Lex(b, a) && -1 <= Lex(a, b) <= 1 && (Lex(a, b) == 0 <==> a == b)
  {
    if a != [] && b != [] {
      LexIsOrder(a[1..], b[1..]);
      assert a[0] == b[0] && a[1..] == b[1..] ==> a == [a[0]] + a[1..] == b;
    }
  }

  lemma {:induction false} LexIsTransitive(a: seq<int>, b: seq<int>, c: seq<int>)
    requires Lex(a, b) <= 0 && Lex(b, c) <= 0
    ensures Lex(a, c) <= 0 && (Lex(a, b) < 0 || Lex(b, c) < 0 ==> Lex(a, c) < 0)
  {
    if a != [] && b != [] && c != [] && a[0] == b[0] == c[0] {
      LexIsTransitive(a[1..], b[1..], c[1..]);
    }
  }

  /** The sign of memcmp on two blocks of one length. */
  function Memcmp(a: string, b: string): int
    requires |a| == |b|
  {
    if a == [] then 0 else if a[0] != b[0] then Sign(Code(a[0]) - Code(b[0])) else Memcmp(a[1..], b[1..])
  }

  function Shorter(a: string, b: string): nat {
    if |a| > |b| then |b| else |a|
  }

  function StringCompare(f1: string, f2: string): int {
    var n := Shorter(f1, f2);
    var result := Memcmp(f1[..n], f2[..n]);
    if result == 0 then Sign(|f1| - |f2|) else result
  }

  function Lower(c: char): char {
    if 'A' <= c <= 'Z' then (c as int + 32) as char else c
  }

  /** strncasecmp in the C locale: it stops at a NUL. */
  function Strncasecmp(a: string, b: string): int
    requires |a| == |b|
  {
    if a == [] then 0
    else if Lower(a[0]) != Lower(b[0]) then Sign(Code(Lower(a[0])) - Code(Lower(b[0])))
    else if a[0] == '\0' then 0
    else Strncasecmp(a[1..], b[1..])
  }

  function IStringCompare(f1: string, f2: string): int {
    var n := Shorter(f1, f2);
    var result := Strncasecmp(f1[..n], f2[..n]);
    if result == 0 then Sign(|f1| - |f2|) else result
  }

  predicate Strippable(c: char) {
    c == ' ' || c == '0'
  }

  function Strip(s: string): (r: string)
    ensures r == [] || !Strippable(r[0])
    ensures |r| <= |s|
  {
    if s != [] && Strippable(s[0]) then Strip(s[1..]) else s
  }

  lemma {:induction false} StripIsSuffix(s: string)
    ensures s == Lead(s) + Strip(s)
  {
    if s != [] && Strippable(s[0]) {
      StripIsSuffix(s[1..]);
      assert Lead(s) == [s[0]] + Lead(s[1..]);
    }
  }

  /** The spaces and zeroes a text begins with. */
  function Lead(s: string): string {
    s[..|s| - |Strip(s)|]
  }

  /** `strip_leading_spaces_and_zeroes`. */
  method StripLeadingSpacesAndZeroes(str: string) returns (r: string)
    ensures r == Strip(str)
  {
    var at, newLength := 0, |str|;
    while newLength > 0 && (str[at] == ' ' || str[at] == '0')
      invariant at + newLength == |str| && 0 <= newLength && 0 <= at && Strip(str) == Strip(str[at..])
    {
      assert str[at..][1..] == str[at + 1..];
      at := at + 1;
      newLength := newLength - 1;
    }
    r := str[at..];
  }

  /** Character by character, as signed characters. */
  function CharCompare(a: string, b: string): int
    requires |a| == |b|
  {
    if a == [] then 0
    else if SignedCode(a[0]) > SignedCode(b[0]) then 1
    else if SignedCode(a[0]) < SignedCode(b[0]) then -1
    else CharCompare(a[1..], b[1..])
  }

  function UintCompare(f1: string, f2: string): int {
    var a, b := Strip(f1), Strip(f2);
    if |a| > |b| then 1 else if |a| < |b| then -1 else CharCompare(a, b)
  }

  /** `uint_compare`. */
  method CompareUints(f1: string, f2: string) returns (result: int)
    ensures result == UintCompare(f1, f2)
  {
    var a := StripLeadingSpacesAndZeroes(f1);
    var b := StripLeadingSpacesAndZeroes(f2);
    if |a| > |b| { return 1; }
    if |a| < |b| { return -1; }
    var i := 0;
    while i < |a|
      invariant 0 <= i <= |a| && CharCompare(a, b) == CharCompare(a[i..], b[i..])
    {
      if SignedCode(a[i]) > SignedCode(b[i]) { return 1; }
      if SignedCode(a[i]) < SignedCode(b[i]) { return -1; }
      assert a[i..][1..] == a[i + 1..] && b[i..][1..] == b[i + 1..];
      i := i + 1;
    }
    result := 0;
  }

  predicate Negative(stripped: string) {
    stripped != [] && stripped[0] == '-'
  }

  /** `int_compare`, with the first byte of an empty stripped field taken not to be a minus sign. */
  function IntCompare(f1: string, f2: string): int {
    var a, b := Strip(f1), Strip(f2);
    if Negative(a) then (if Negative(b) then -UintCompare(a[1..], b[1..]) else -1)
    else if Negative(b) then 1
    else UintCompare(a, b)
  }

  function CompareBy(kind: Kind, f1: string, f2: string): int {
    match kind
    case StringKey => StringCompare(f1, f2)
    case IStringKey => IStringCompare(f1, f2)
    case UintKey => UintCompare(f1, f2)
    case IntKey => IntCompare(f1, f2)
  }

  /** The text each hash function feeds to the hash, byte by byte. */
  function HashedText(kind: Kind, f: string): string {
    match kind
    case StringKey => f
    case IStringKey => seq(|f|, i requires 0 <= i < |f| => Lower(f[i]))
    case UintKey => Strip(f)
    case IntKey => Strip(f)
  }

  function HashAdd(add: (char, int) -> int, text: string, hval: int): int {
    if text == [] then hval else HashAdd(add, text[1..], add(text[0], hval))
  }

  /** `string_hash_add` and its siblings. */
  function HashBy(kind: Kind, add: (char, int) -> int, f: string, hval: int): int {
    HashAdd(add, HashedText(kind, f), hval)
  }

  /** Feed a text to the hash. */
  method AddTextHash(add: (char, int) -> int, text: string, hval: int) returns (h: int)
    ensures h == HashAdd(add, text, hval)
  {
    h := hval;
    var p := 0;
    while p < |text|
      invariant 0 <= p <= |text| && HashAdd(add, text, hval) == HashAdd(add, text[p..], h)
    {
      h := add(text[p], h);
      assert text[p..][1..] == text[p + 1..];
      p := p + 1;
    }
  }

  /** `istring_hash_add`. */
  method AddIStringHash(add: (char, int) -> int, str: string, hval: int) returns (h: int)
    ensures h == HashBy(IStringKey, add, str, hval)
  {
    ghost var text := HashedText(IStringKey, str);
    h := hval;
    var p := 0;
    while p < |str|
      invariant 0 <= p <= |str| && HashAdd(add, text, hval) == HashAdd(add, text[p..], h)
    {
      h := add(Lower(str[p]), h);
      assert text[p..][1..] == text[p + 1..];
      p := p + 1;
    }
  }

  /** `uint_hash_add`, and `int_hash_add` alike. */
  method AddNumberHash(add: (char, int) -> int, field: string, hval: int) returns (h: int)
    ensures h == HashBy(UintKey, add, field, hval) == HashBy(IntKey, add, field, hval)
  {
    var stripped := StripLeadingSpacesAndZeroes(field);
    h := AddTextHash(add, stripped, hval);
  }

  // --- Every comparison is lexicographic in a key of its own. ---

  function SignedCodes(s: string, factor: int): (r: seq<int>)
    ensures |r| == |s|
  {
    seq(|s|, i requires 0 <= i < |s| => factor * SignedCode(s[i]))
  }

  function UintKeyOf(f: string, factor: int): seq<int> {
    [factor * |Strip(f)|] + SignedCodes(Strip(f), factor)
  }

  /** The part strncasecmp looks at, and a mark below every character that ends it. */
  function FoldedKey(s: string): seq<int> {
    if s == [] || s[0] == '\0' then [0] else [Code(Lower(s[0]))] + FoldedKey(s[1..])
  }

  function KeyOf(kind: Kind, f: string): seq<int> {
    match kind
    case StringKey => Codes(f)
    case IStringKey => FoldedKey(f) + [|f|]
    case UintKey => UintKeyOf(f, 1)
    case IntKey =>
      var a := Strip(f);
      if Negative(a) then [0] + UintKeyOf(a[1..], -1) else [1] + UintKeyOf(a, 1)
  }

  lemma CompareIsLex(kind: Kind, f1: string, f2: string)
    ensures CompareBy(kind, f1, f2) == Lex(KeyOf(kind, f1), KeyOf(kind, f2))
  {
    match kind
    case StringKey => StringIsLex(f1, f2);
    case IStringKey => IStringIsLex(f1, f2, |f1|, |f2|);
    case UintKey => UintIsLex(f1, f2, 1);
    case IntKey => IntIsLex(f1, f2);
  }

  lemma {:induction false} StringIsLex(f1: string, f2: string)
    ensures StringCompare(f1, f2) == Lex(Codes(f1), Codes(f2))
  {
    var n := Shorter(f1, f2);
    if n > 0 {
      StringIsLex(f1[1..], f2[1..]);
      assert f1[..n][1..] == f1[1..][..n - 1] && f2[..n][1..] == f2[1..][..n - 1];
      assert Codes(f1)[1..] == Codes(f1[1..]) && Codes(f2)[1..] == Codes(f2[1..]);
    }
  }

  lemma {:induction false} IStringIsLex(f1: string, f2: string, n1: nat, n2: nat)
    requires n1 >= |f1| && n2 - n1 == |f2| - |f1|
    ensures IStringCompare(f1, f2) == Lex(FoldedKey(f1) + [n1], FoldedKey(f2) + [n2])
  {
    var n := Shorter(f1, f2);
    if n > 0 && f1[0] != '\0' && f2[0] != '\0' {
      IStringIsLex(f1[1..], f2[1..], n1, n2);
      assert f1[..n][1..] == f1[1..][..n - 1] && f2[..n][1..] == f2[1..][..n - 1];
      assert (FoldedKey(f1) + [n1])[1..] == FoldedKey(f1[1..]) + [n1];
      assert (FoldedKey(f2) + [n2])[1..] == FoldedKey(f2[1..]) + [n2];
    } else {
      FoldedStarts(f1);
      FoldedStarts(f2);
      var k1, k2 := FoldedKey(f1) + [n1], FoldedKey(f2) + [n2];
      if k1[0] == k2[0] {
        assert k1 == [0, n1] && k2 == [0, n2];
        LexOfPairs(0, n1, n2);
      }
    }
  }

  lemma LexOfPairs(x: int, n1: int, n2: int)
    ensures Lex([x, n1], [x, n2]) == Sign(n1 - n2)
  {
    assert [x, n1][1..] == [n1] && [x, n2][1..] == [n2];
    var a, b := [n1], [n2];
    assert a[1..] == [] && b[1..] == [] && Lex(a[1..], b[1..]) == 0;
    assert Lex(a, b) == Sign(n1 - n2);
  }

  lemma FoldedStarts(f: string)
    ensures FoldedKey(f) != [] && FoldedKey(f)[0] >= 0
    ensures FoldedKey(f)[0] == 0 <==> f == [] || f[0] == '\0'
    ensures FoldedKey(f)[0] == 0 ==> FoldedKey(f) == [0]
  {
  }

  lemma {:induction false} CharsAreLex(a: string, b: string, factor: int)
    requires |a| == |b| && (factor == 1 || factor == -1)
    ensures factor * CharCompare(a, b) == Lex(SignedCodes(a, factor), SignedCodes(b, factor))
  {
    if a != [] {
      CharsAreLex(a[1..], b[1..], factor);
      assert SignedCodes(a, factor)[1..] == SignedCodes(a[1..], factor);
      assert SignedCodes(b, factor)[1..] == SignedCodes(b[1..], factor);
    }
  }

  lemma UintIsLex(f1: string, f2: string, factor: int)
    requires factor == 1 || factor == -1
    ensures factor * UintCompare(f1, f2) == Lex(UintKeyOf(f1, factor), UintKeyOf(f2, factor))
  {
    if |Strip(f1)| == |Strip(f2)| {
      CharsAreLex(Strip(f1), Strip(f2), factor);
      assert UintKeyOf(f1, factor)[1..] == SignedCodes(Strip(f1), factor);
      assert UintKeyOf(f2, factor)[1..] == SignedCodes(Strip(f2), factor);
    }
  }

  lemma IntIsLex(f1: string, f2: string)
    ensures IntCompare(f1, f2) == Lex(KeyOf(IntKey, f1), KeyOf(IntKey, f2))
  {
    var a, b := Strip(f1), Strip(f2);
    var k1, k2 := KeyOf(IntKey, f1), KeyOf(IntKey, f2);
    if Negative(a) && Negative(b) {
      UintIsLex(a[1..], b[1..], -1);
      assert k1[1..] == UintKeyOf(a[1..], -1) && k2[1..] == UintKeyOf(b[1..], -1);
    } else if !Negative(a) && !Negative(b) {
      UintIsLex(a, b, 1);
      assert k1[1..] == UintKeyOf(a, 1) && k2[1..] == UintKeyOf(b, 1);
    }
  }

  /** So on all texts every comparison is a total preorder. */
  lemma ComparisonIsOrder(kind: Kind, f1: string, f2: string, f3: string)
    ensures CompareBy(kind, f1, f2) == -CompareBy(kind, f2, f1)
    ensures CompareBy(kind, f1, f2) <= 0 && CompareBy(kind, f2, f3) <= 0 ==>
              CompareBy(kind, f1, f3) <= 0
              && (CompareBy(kind, f1, f2) < 0 || CompareBy(kind, f2, f3) < 0 ==> CompareBy(kind, f1, f3) < 0)
  {
    CompareIsLex(kind, f1, f2);
    CompareIsLex(kind, f2, f1);
    CompareIsLex(kind, f2, f3);
    CompareIsLex(kind, f1, f3);
    LexIsOrder(KeyOf(kind, f1), KeyOf(kind, f2));
    if CompareBy(kind, f1, f2) <= 0 && CompareBy(kind, f2, f3) <= 0 {
      LexIsTransitive(KeyOf(kind, f1), KeyOf(kind, f2), KeyOf(kind, f3));
    }
  }

  // --- Comparing digits compares numbers. ---

  predicate Digits(s: string) {
    forall i :: 0 <= i < |s| ==> '0' <= s[i] <= '9'
  }

  function Pow10(n: nat): (p: nat)
    ensures p > 0
  {
    if n == 0 then 1 else 10 * Pow10(n - 1)
  }

  /** The number a string of digits stands for. */
  function Value(s: string): nat
    requires Digits(s)
  {
    if s == [] then 0 else (s[0] as int - '0' as int) * Pow10(|s| - 1) + Value(s[1..])
  }

  lemma {:induction false} ValueBound(s: string)
    requires Digits(s)
    ensures Value(s) < Pow10(|s|)
  {
    if s != [] {
      ValueBound(s[1..]);
      DigitDominates(10, s[0] as int - '0' as int, Pow10(|s| - 1), 0, Value(s[1..]));
    }
  }

  lemma DigitDominates(d: int, e: int, p: int, v: int, w: int)
    requires d > e && 0 <= w < p && v >= 0
    ensures d * p + v > e * p + w
  {
    assert d * p >= (e + 1) * p;
  }

  lemma {:induction false} Pow10Grows(m: nat, n: nat)
    requires m <= n
    ensures Pow10(m) <= Pow10(n)
  {
    if m < n { Pow10Grows(m, n - 1); }
  }

  lemma {:induction false} SameLengthCompare(a: string, b: string)
    requires Digits(a) && Digits(b) && |a| == |b|
    ensures CharCompare(a, b) == Sign(Value(a) - Value(b))
  {
    if a != [] {
      SameLengthCompare(a[1..], b[1..]);
      ValueBound(a[1..]);
      ValueBound(b[1..]);
      var p, da, db := Pow10(|a| - 1), a[0] as int - '0' as int, b[0] as int - '0' as int;
      if da > db {
        DigitDominates(da, db, p, Value(a[1..]), Value(b[1..]));
      } else if da < db {
        DigitDominates(db, da, p, Value(b[1..]), Value(a[1..]));
      }
    }
  }

  /** A longer number without leading zeroes is the greater one. */
  lemma LongerIsGreater(a: string, b: string)
    requires Digits(a) && Digits(b) && |a| > |b| && a[0] != '0'
    ensures Value(a) > Value(b)
  {
    ValueBound(b);
    Pow10Grows(|b|, |a| - 1);
    DigitDominates(a[0] as int - '0' as int, 0, Pow10(|a| - 1), Value(a[1..]), Pow10(|a| - 1) - 1);
  }

  /** Digits after any mix of leading spaces and zeroes. */
  predicate IsUint(f: string) {
    Digits(Strip(f))
  }

  function UintValue(f: string): nat
    requires IsUint(f)
  {
    Value(Strip(f))
  }

  /** Stripping leading zeroes does not change a number. */
  lemma {:induction false} StripKeepsValue(s: string)
    requires Digits(s)
    ensures IsUint(s) && UintValue(s) == Value(s)
  {
    if s != [] && s[0] == '0' {
      StripKeepsValue(s[1..]);
    }
  }

  /** At any length, comparing by stripped length and then characters is comparing the numbers. */
  lemma UintCompareIsNumeric(f1: string, f2: string)
    requires IsUint(f1) && IsUint(f2)
    ensures UintCompare(f1, f2) == Sign(UintValue(f1) - UintValue(f2))
  {
    var a, b := Strip(f1), Strip(f2);
    if |a| > |b| {
      LongerIsGreater(a, b);
    } else if |a| < |b| {
      LongerIsGreater(b, a);
    } else {
      SameLengthCompare(a, b);
    }
  }

  predicate IsInt(f: string) {
    var a := Strip(f);
    if Negative(a) then IsUint(a[1..]) else Digits(a)
  }

  function IntValue(f: string): int
    requires IsInt(f)
  {
    var a := Strip(f);
    if Negative(a) then 0 - UintValue(a[1..]) else Value(a)
  }

  lemma {:induction false} StripTwice(s: string)
    ensures Strip(Strip(s)) == Strip(s)
  {
    if s != [] && Strippable(s[0]) { StripTwice(s[1..]); }
  }

  /** Comparing signed texts is comparing the numbers, except that a negative zero comes before zero. */
  lemma IntCompareIsNumeric(f1: string, f2: string)
    requires IsInt(f1) && IsInt(f2)
    ensures IntCompare(f1, f2) == Sign(IntValue(f1) - IntValue(f2))
       <==> !(IntValue(f1) == 0 && IntValue(f2) == 0 && Negative(Strip(f1)) != Negative(Strip(f2)))
  {
    var a, b := Strip(f1), Strip(f2);
    StripTwice(f1);
    StripTwice(f2);
    if Negative(a) && Negative(b) {
      UintCompareIsNumeric(a[1..], b[1..]);
    } else if !Negative(a) && !Negative(b) {
      UintCompareIsNumeric(a, b);
    }
  }

  // --- Fields that compare equal hash alike. ---

  predicate NulFree(f: string) {
    forall i :: 0 <= i < |f| ==> f[i] != '\0'
  }

  /** No second run of spaces or zeroes behind a minus sign. */
  predicate CanonicalInt(f: string) {
    var a := Strip(f);
    Negative(a) && |a| > 1 ==> !Strippable(a[1])
  }

  predicate Hashable(kind: Kind, f: string) {
    match kind
    case StringKey => true
    case IStringKey => NulFree(f)
    case UintKey => true
    case IntKey => CanonicalInt(f)
  }

  lemma EqualHashesAlike(kind: Kind, f1: string, f2: string, add: (char, int) -> int, hval: int)
    requires CompareBy(kind, f1, f2) == 0 && Hashable(kind, f1) && Hashable(kind, f2)
    ensures HashBy(kind, add, f1, hval) == HashBy(kind, add, f2, hval)
  {
    SameText(kind, f1, f2);
  }

  lemma SameText(kind: Kind, f1: string, f2: string)
    requires CompareBy(kind, f1, f2) == 0 && Hashable(kind, f1) && Hashable(kind, f2)
    ensures HashedText(kind, f1) == HashedText(kind, f2)
  {
    match kind
    case StringKey => EqualStrings(f1, f2);
    case IStringKey =>
      assert f1[..|f1|] == f1 && f2[..|f2|] == f2;
      LengthsEqual(f1, f2);
      EqualFolded(f1, f2);
    case UintKey => EqualUints(f1, f2);
    case IntKey =>
      var a, b := Strip(f1), Strip(f2);
      StripTwice(f1);
      StripTwice(f2);
      if Negative(a) {
        EqualUints(a[1..], b[1..]);
        assert a == [a[0]] + a[1..] && b == [b[0]] + b[1..];
      } else {
        EqualUints(a, b);
      }
  }

  lemma EqualStrings(f1: string, f2: string)
    requires StringCompare(f1, f2) == 0
    ensures f1 == f2
  {
    StringIsLex(f1, f2);
    LexIsOrder(Codes(f1), Codes(f2));
    forall i | 0 <= i < |f1| ensures |f1| == |f2| && f1[i] == f2[i] {
      assert |Codes(f1)| == |Codes(f2)| && Codes(f1)[i] == Codes(f2)[i];
    }
    assert |Codes(f1)| == |Codes(f2)|;
  }

  lemma LengthsEqual(f1: string, f2: string)
    requires IStringCompare(f1, f2) == 0
    ensures |f1| == |f2|
  {
  }

  lemma {:induction false} EqualFolded(f1: string, f2: string)
    requires |f1| == |f2| && NulFree(f1) && Strncasecmp(f1, f2) == 0
    ensures HashedText(IStringKey, f1) == HashedText(IStringKey, f2)
  {
    if f1 != [] {
      EqualFolded(f1[1..], f2[1..]);
      var t1, t2 := HashedText(IStringKey, f1), HashedText(IStringKey, f2);
      assert t1[1..] == HashedText(IStringKey, f1[1..]) && t2[1..] == HashedText(IStringKey, f2[1..]);
      assert t1 == [t1[0]] + t1[1..] && t2 == [t2[0]] + t2[1..];
    }
  }

  lemma EqualUints(f1: string, f2: string)
    requires UintCompare(f1, f2) == 0
    ensures Strip(f1) == Strip(f2)
  {
    EqualChars(Strip(f1), Strip(f2));
  }

  lemma {:induction false} EqualChars(a: string, b: string)
    requires |a| == |b| && CharCompare(a, b) == 0
    ensures a == b
  {
    if a != [] {
      EqualChars(a[1..], b[1..]);
      assert a == [a[0]] + a[1..] && b == [b[0]] + b[1..];
    }
  }

  /** Of two int fields that compare equal the hashed texts are the same exactly when the spaces and zeroes
      behind the minus sign, if there is one, are the same; so "-05" and "-5" are equal keys that hash apart. */
  lemma EqualIntsHashAlikeExactly(f1: string, f2: string)
    requires IntCompare(f1, f2) == 0
    ensures HashedText(IntKey, f1) == HashedText(IntKey, f2)
       <==> (Negative(Strip(f1)) ==> Lead(Strip(f1)[1..]) == Lead(Strip(f2)[1..]))
  {
    var a, b := Strip(f1), Strip(f2);
    StripTwice(f1);
    StripTwice(f2);
    if Negative(a) {
      var c, d := a[1..], b[1..];
      EqualUints(c, d);
      StripIsSuffix(c);
      StripIsSuffix(d);
      assert a == ['-'] + c && b == ['-'] + d;
    } else {
      EqualUints(a, b);
    }
  }

  lemma NonCanonicalInts()
    ensures IntCompare("-05", "-5") == 0 && HashedText(IntKey, "-05") != HashedText(IntKey, "-5")
  {
    assert Strip("-05") == "-05" && Strip("-5") == "-5";
    assert "-05"[1..] == "05" && "-5"[1..] == "5" && "05"[1..] == "5";
    assert Strip("05") == Strip("5") == "5";
    EqualTexts("5");
  }

  lemma {:induction false} EqualTexts(a: string)
    ensures CharCompare(a, a) == 0
  {
    if a != [] { EqualTexts(a[1..]); }
  }
}
