/** What the comparisons of np1/rel/detail/helper.hpp say about the characters of two fields, by their codes: where
    the first difference that matters lies, and which field it puts first. */
module FieldOrder {
  import opened Compare

  /** The same character, or the two cases of one ASCII letter. */
  predicate SameLetter(a: char, b: char) {
    || a == b
    || (65 <= a as int <= 90 && b as int == a as int + 32)
    || (65 <= b as int <= 90 && a as int == b as int + 32)
  }

  /** The code an ASCII capital has as a small letter, and every other character's own code. */
  function Folded(c: char): int {
    if 65 <= c as int <= 90 then c as int + 32 else c as int
  }

  /** Before `p` both texts have the same letters and no NUL. */
  predicate AgreeTo(f1: string, f2: string, p: nat) {
    p <= |f1| && p <= |f2| && forall i :: 0 <= i < p ==> SameLetter(f1[i], f2[i]) && f1[i] as int != 0
  }

  /** `p` is where strncasecmp stops: at a difference in more than case, at a NUL, or where a text ends. */
  predicate StopsAt(f1: string, f2: string, p: nat) {
    AgreeTo(f1, f2, p)
    && (p == |f1| || p == |f2| || !SameLetter(f1[p], f2[p]) || f1[p] as int == 0)
  }

  /** Two texts that have the same letters place by place. */
  predicate SameButForCase(f1: string, f2: string) {
    |f1| == |f2| && forall i :: 0 <= i < |f1| ==> SameLetter(f1[i], f2[i])
  }

  lemma LowerFolds(a: char, b: char)
    ensures Lower(a) as int == Folded(a)
    ensures Lower(a) == Lower(b) <==> SameLetter(a, b)
  {
  }

  /** There is one such place. */
  lemma {:induction false} StopExists(f1: string, f2: string, from: nat) returns (p: nat)
    requires AgreeTo(f1, f2, from)
    ensures StopsAt(f1, f2, p)
    decreases |f1| - from
  {
    hide SameLetter;
    p := from;
    if !StopsAt(f1, f2, from) {
      p := StopExists(f1, f2, from + 1);
    }
  }

  /** An istring comparison is decided at that place: by the codes there, capitals counting as small letters, or else
      by the lengths. */
  lemma IStringByCharacters(f1: string, f2: string, p: nat)
    requires StopsAt(f1, f2, p)
    ensures CompareBy(IStringKey, f1, f2)
         == if p < |f1| && p < |f2| && !SameLetter(f1[p], f2[p])
            then (if Folded(f1[p]) < Folded(f2[p]) then -1 else 1)
            else (if |f1| < |f2| then -1 else if |f1| > |f2| then 1 else 0)
  {
    hide SameLetter, Folded, Lower;
    var n := if |f1| > |f2| then |f2| else |f1|;
    StrncasecmpAt(f1[..n], f2[..n], p);
  }

  lemma {:induction false} StrncasecmpAt(a: string, b: string, p: nat)
    requires |a| == |b| && StopsAt(a, b, p)
    ensures Strncasecmp(a, b)
         == if p < |a| && !SameLetter(a[p], b[p]) then (if Folded(a[p]) < Folded(b[p]) then -1 else 1) else 0
    decreases p
  {
    hide SameLetter, Folded, Lower;
    if a != [] {
      LowerFolds(a[0], b[0]);
      LowerFolds(b[0], a[0]);
      if p > 0 {
        assert forall i :: 0 <= i < p - 1 ==> a[1..][i] == a[i + 1] && b[1..][i] == b[i + 1];
        StrncasecmpAt(a[1..], b[1..], p - 1);
      }
    }
  }

  /** Without a NUL, istrings compare equal exactly when they are the same but for the case of their letters. */
  lemma IStringsEqualExactly(f1: string, f2: string)
    requires NulFree(f1) && NulFree(f2)
    ensures CompareBy(IStringKey, f1, f2) == 0 <==> SameButForCase(f1, f2)
  {
    hide SameLetter, Folded, CompareBy;
    var p := StopExists(f1, f2, 0);
    IStringByCharacters(f1, f2, p);
    assert p < |f1| ==> f1[p] != '\0';
  }

  /** Of two istrings the same text is hashed exactly when they are the same but for case, and the hash is then the
      same; what is hashed has the codes of small letters. */
  lemma IStringHashedExactly(f1: string, f2: string, add: (char, int) -> int, hval: int)
    ensures HashedText(IStringKey, f1) == HashedText(IStringKey, f2) <==> SameButForCase(f1, f2)
    ensures SameButForCase(f1, f2) ==> HashBy(IStringKey, add, f1, hval) == HashBy(IStringKey, add, f2, hval)
    ensures |HashedText(IStringKey, f1)| == |f1|
    ensures forall i :: 0 <= i < |f1| ==> HashedText(IStringKey, f1)[i] as int == Folded(f1[i])
  {
    hide SameLetter, Folded, Lower;
    var t1, t2 := HashedText(IStringKey, f1), HashedText(IStringKey, f2);
    forall i | 0 <= i < |f1| ensures t1[i] as int == Folded(f1[i]) {
      LowerFolds(f1[i], f1[i]);
    }
    if |f1| == |f2| {
      forall i | 0 <= i < |f1| ensures t1[i] == t2[i] <==> SameLetter(f1[i], f2[i]) {
        LowerFolds(f1[i], f2[i]);
      }
    }
  }

  // --- Plain texts and numbers. ---

  /** `p` is the first place where the texts differ, or the end of one of them. */
  predicate FirstDifference(f1: string, f2: string, p: nat) {
    && p <= |f1| && p <= |f2| && (forall i :: 0 <= i < p ==> f1[i] == f2[i])
    && (p == |f1| || p == |f2| || f1[p] != f2[p])
  }

  /** A string comparison is decided by the codes at the first difference, or else by the lengths. */
  lemma StringByCharacters(f1: string, f2: string, p: nat)
    requires FirstDifference(f1, f2, p)
    ensures CompareBy(StringKey, f1, f2)
         == if p < |f1| && p < |f2| then (if f1[p] as int < f2[p] as int then -1 else 1)
            else (if |f1| < |f2| then -1 else if |f1| > |f2| then 1 else 0)
  {
    var n := if |f1| > |f2| then |f2| else |f1|;
    MemcmpAt(f1[..n], f2[..n], p);
  }

  lemma {:induction false} MemcmpAt(a: string, b: string, p: nat)
    requires |a| == |b| && FirstDifference(a, b, p)
    ensures Memcmp(a, b) == if p == |a| then 0 else if a[p] as int < b[p] as int then -1 else 1
    decreases p
  {
    if p > 0 {
      assert forall i :: 0 <= i < p - 1 ==> a[1..][i] == a[i + 1] && b[1..][i] == b[i + 1];
      MemcmpAt(a[1..], b[1..], p - 1);
    }
  }

  /** The text is spaces and zeroes, then `rest`, which starts with neither. */
  predicate Leads(f: string, lead: string, rest: string) {
    && f == lead + rest && (forall i :: 0 <= i < |lead| ==> lead[i] == ' ' || lead[i] == '0')
    && (rest == "" || (rest[0] != ' ' && rest[0] != '0'))
  }

  /** Stripping leaves exactly what follows the leading spaces and zeroes, and that is what is hashed of a number. */
  lemma {:induction false} StripsExactly(f: string, lead: string, rest: string)
    requires Leads(f, lead, rest)
    ensures Strip(f) == rest == HashedText(UintKey, f) == HashedText(IntKey, f)
    decreases |lead|
  {
    if lead != "" {
      assert f[0] == lead[0] && f[1..] == lead[1..] + rest;
      StripsExactly(f[1..], lead[1..], rest);
    } else {
      assert f == rest;
    }
  }

  /** A byte as a signed character. */
  function Signed(c: char): int {
    if c as int >= 128 && c as int <= 255 then c as int - 256 else c as int
  }

  /** Of two uint fields the longer one after stripping is the greater; at one length the first difference decides,
      by signed characters. */
  lemma UintByCharacters(f1: string, lead1: string, rest1: string, f2: string, lead2: string, rest2: string, p: nat)
    requires Leads(f1, lead1, rest1) && Leads(f2, lead2, rest2) && FirstDifference(rest1, rest2, p)
    ensures CompareBy(UintKey, f1, f2)
         == if |rest1| < |rest2| then -1 else if |rest1| > |rest2| then 1 else if p == |rest1| then 0
            else if Signed(rest1[p]) < Signed(rest2[p]) then -1 else 1
  {
    StripsExactly(f1, lead1, rest1);
    StripsExactly(f2, lead2, rest2);
    if |rest1| == |rest2| {
      CharCompareAt(rest1, rest2, p);
    }
  }

  lemma {:induction false} CharCompareAt(a: string, b: string, p: nat)
    requires |a| == |b| && FirstDifference(a, b, p)
    ensures CharCompare(a, b) == if p == |a| then 0 else if Signed(a[p]) < Signed(b[p]) then -1 else 1
    decreases p
  {
    if p > 0 {
      assert forall i :: 0 <= i < p - 1 ==> a[1..][i] == a[i + 1] && b[1..][i] == b[i + 1];
      CharCompareAt(a[1..], b[1..], p - 1);
    }
  }

  /** Of two int fields one with a minus sign comes first; two with one compare the other way round behind it. */
  lemma IntByCharacters(f1: string, lead1: string, rest1: string, f2: string, lead2: string, rest2: string)
    requires Leads(f1, lead1, rest1) && Leads(f2, lead2, rest2)
    ensures var minus1, minus2 := rest1 != "" && rest1[0] == '-', rest2 != "" && rest2[0] == '-';
      CompareBy(IntKey, f1, f2)
      == if minus1 && minus2 then -CompareBy(UintKey, rest1[1..], rest2[1..])
         else if minus1 then -1 else if minus2 then 1 else CompareBy(UintKey, f1, f2)
  {
    StripsExactly(f1, lead1, rest1);
    StripsExactly(f2, lead2, rest2);
    StripTwice(f1);
    StripTwice(f2);
  }
}
