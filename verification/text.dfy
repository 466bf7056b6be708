/** String helpers used by the listing search: ASCII lower-casing and substring search. */
module Text {

  predicate IsUpper(c: char) {
    'A' <= c <= 'Z'
  }

  /** Lower-cases one character; only the ASCII letters A-Z are affected. */
  function LowerChar(c: char): char {
    if IsUpper(c) then (c as int + 32) as char else c
  }

  /** Lower-cases a string character by character. */
  function ToLower(s: string): (r: string)
    ensures |r| == |s|
    ensures forall i :: 0 <= i < |s| ==> r[i] == LowerChar(s[i])
    ensures forall i :: 0 <= i < |r| ==> !IsUpper(r[i])
  {
    if s == [] then [] else [LowerChar(s[0])] + ToLower(s[1..])
  }

  /** Lower-casing twice is lower-casing once. */
  lemma ToLowerIdempotent(s: string)
    ensures ToLower(ToLower(s)) == ToLower(s)
  {
    var once := ToLower(s);
    var twice := ToLower(once);
    assert forall i :: 0 <= i < |once| ==> twice[i] == once[i];
  }

  predicate IsPrefix(p: string, s: string) {
    |p| <= |s| && s[..|p|] == p
  }

  /** `sub` occurs in `s` starting at index `i`. */
  predicate OccursAt(s: string, sub: string, i: int) {
    0 <= i && i + |sub| <= |s| && s[i..i + |sub|] == sub
  }

  /** Substring search, as a recursive scan over the suffixes of `s`. */
  predicate Contains(s: string, sub: string)
    decreases |s|
  {
    IsPrefix(sub, s) || (s != [] && Contains(s[1..], sub))
  }

  /** An occurrence at index `i` is found by the recursive scan. */
  lemma {:induction false} OccursImpliesContains(s: string, sub: string, i: int)
    requires OccursAt(s, sub, i)
    ensures Contains(s, sub)
    decreases i
  {
    if i == 0 {
      assert s[..|sub|] == s[0..|sub|];
    } else {
      assert s[1..][i - 1..i - 1 + |sub|] == s[i..i + |sub|];
      OccursImpliesContains(s[1..], sub, i - 1);
    }
  }

  /** The recursive scan succeeds only on an actual occurrence, and returns one. */
  lemma {:induction false} ContainsImpliesOccurs(s: string, sub: string) returns (i: int)
    requires Contains(s, sub)
    ensures OccursAt(s, sub, i)
    decreases |s|
  {
    if IsPrefix(sub, s) {
      i := 0;
    } else {
      var j := ContainsImpliesOccurs(s[1..], sub);
      assert s[1..][j..j + |sub|] == s[j + 1..j + 1 + |sub|];
      i := j + 1;
    }
  }

  /** The recursive scan agrees with the index-based definition of a substring. */
  lemma ContainsIffOccurs(s: string, sub: string)
    ensures Contains(s, sub) <==> exists i :: OccursAt(s, sub, i)
  {
    if Contains(s, sub) {
      var i := ContainsImpliesOccurs(s, sub);
    }
    forall i | OccursAt(s, sub, i)
      ensures Contains(s, sub)
    {
      OccursImpliesContains(s, sub, i);
    }
  }

  /**
   * The case-insensitive match used by the listing search: both sides are
   * lower-cased before the substring test.
   */
  predicate ContainsFold(s: string, sub: string) {
    Contains(ToLower(s), ToLower(sub))
  }

  /** The case-insensitive match holds exactly when the lower-cased term occurs in the lower-cased text. */
  lemma ContainsFoldIffOccurs(s: string, sub: string)
    ensures ContainsFold(s, sub) ==> exists i :: OccursAt(ToLower(s), ToLower(sub), i)
    ensures (exists i :: OccursAt(ToLower(s), ToLower(sub), i)) ==> ContainsFold(s, sub)
  {
    ContainsIffOccurs(ToLower(s), ToLower(sub));
    if ContainsFold(s, sub) {
      var i := ContainsImpliesOccurs(ToLower(s), ToLower(sub));
      assert OccursAt(ToLower(s), ToLower(sub), i);
    }
  }

  /** The case-insensitive match does not depend on the case of the search term. */
  lemma ContainsFoldIgnoresTermCase(s: string, sub: string)
    ensures ContainsFold(s, sub) == ContainsFold(s, ToLower(sub))
  {
    ToLowerIdempotent(sub);
  }

  /** The number a string of decimal digits denotes, most significant digit first. */
  function DecimalValue(digits: string): nat
    decreases |digits|
  {
    if digits == [] then 0
    else
      var last := digits[|digits| - 1];
      var d := if '0' <= last <= '9' then (last - '0') as int else 0;
      DecimalValue(digits[..|digits| - 1]) * 10 + d
  }

  /**
   * Decimal rendering of a natural number, as `%d` prints it: digits only,
   * no leading zero, and reading the digits back gives the number.
   */
  function NatToString(n: nat): (r: string)
    ensures r != []
    ensures forall i :: 0 <= i < |r| ==> '0' <= r[i] <= '9'
    ensures r[0] == '0' ==> r == "0"
    ensures DecimalValue(r) == n
    decreases n
  {
    var digit := ['0' + (n % 10) as char];
    if n < 10 then digit
    else
      var prefix := NatToString(n / 10);
      assert (prefix + digit)[..|prefix|] == prefix;
      prefix + digit
  }
}
