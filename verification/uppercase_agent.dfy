/**
 * `UppercaseAgent.transform`: the text in capitals. The simulated latency
 * before the result does not change the value and is not modelled.
 * Case mapping is the ASCII one: `a`..`z` become `A`..`Z`, every other
 * character is kept.
 */
module UppercaseAgent {

  predicate IsLowerAscii(c: char) { 'a' <= c <= 'z' }

  predicate IsUpperAscii(c: char) { 'A' <= c <= 'Z' }

  function UpperChar(c: char): char {
    if IsLowerAscii(c) then (c as int - 32) as char else c
  }

  /** The reference case fold that `Transform` is checked against. */
  function LowerChar(c: char): char {
    if IsUpperAscii(c) then (c as int + 32) as char else c
  }

  /** `str.upper`, character by character. */
  function Upper(s: string): (r: string)
    ensures |r| == |s|
  {
    if s == [] then [] else [UpperChar(s[0])] + Upper(s[1..])
  }

  /** Two strings that differ at most in the case of their ASCII letters. */
  ghost predicate SameUpToCase(a: string, b: string) {
    |a| == |b| && forall i :: 0 <= i < |a| ==> LowerChar(a[i]) == LowerChar(b[i])
  }

  ghost predicate NoLowerCase(s: string) {
    forall i :: 0 <= i < |s| ==> !IsLowerAscii(s[i])
  }

  /**
   * `transform(text)`: a result that differs from `text` only in the case of
   * ASCII letters and holds no ASCII lower-case letter. It depends on `text` alone.
   */
  function Transform(text: string): (r: string)
    ensures SameUpToCase(r, text)
    ensures NoLowerCase(r)
  {
    UpperPointwise(text);
    Upper(text)
  }

  lemma {:induction false} UpperAt(s: string, i: nat)
    requires i < |s|
    ensures Upper(s)[i] == UpperChar(s[i])
  {
    if i > 0 {
      UpperAt(s[1..], i - 1);
    }
  }

  lemma UpperPointwise(s: string)
    ensures SameUpToCase(Upper(s), s)
    ensures NoLowerCase(Upper(s))
  {
    forall i | 0 <= i < |s|
      ensures LowerChar(Upper(s)[i]) == LowerChar(s[i]) && !IsLowerAscii(Upper(s)[i])
    {
      UpperAt(s, i);
    }
  }

  lemma UpperCharUnique(c: char, u: char)
    requires !IsLowerAscii(u) && LowerChar(u) == LowerChar(c)
    ensures u == UpperChar(c)
  {
  }

  /**
   * The contract of `Transform` determines its result: any string that
   * differs from `text` only in the case of ASCII letters and has no ASCII
   * lower-case letter is it.
   */
  lemma TransformUnique(text: string, r: string)
    requires SameUpToCase(r, text) && NoLowerCase(r)
    ensures r == Transform(text)
  {
    forall i | 0 <= i < |r| ensures r[i] == Upper(text)[i] {
      UpperCharUnique(text[i], r[i]);
      UpperAt(text, i);
    }
  }

  /** Upper-casing twice is upper-casing once. */
  lemma TransformIdempotent(text: string)
    ensures Transform(Transform(text)) == Transform(text)
  {
    var once := Transform(text);
    var twice := Transform(once);
    forall i | 0 <= i < |twice| ensures twice[i] == once[i] {
      UpperAt(once, i);
    }
  }

  /** Upper-casing a concatenation upper-cases each piece. */
  lemma {:induction false} UpperConcat(a: string, b: string)
    ensures Upper(a + b) == Upper(a) + Upper(b)
  {
    if a == [] {
      assert a + b == b;
    } else {
      assert (a + b)[1..] == a[1..] + b;
      UpperConcat(a[1..], b);
    }
  }
}
