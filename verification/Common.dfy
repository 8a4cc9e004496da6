// What several components share: optional values, and the comparison of texts that
// ignores the case of ASCII letters.

module Common {
  datatype Option<+T> = None | Some(value: T)

  function Lower(c: char): char {
    if 'A' <= c <= 'Z' then (c as int + 32) as char else c
  }

  // tsk_striequals
  predicate EqualsIgnoringCase(a: string, b: string) {
    |a| == |b| && forall i :: 0 <= i < |a| ==> Lower(a[i]) == Lower(b[i])
  }

  // The k-th letter, in either form.
  predicate IsLetter(c: char, k: int) {
    0 <= k < 26 && c as int in {65 + k, 97 + k}
  }

  ghost predicate SameLetter(x: char, y: char) {
    exists k :: IsLetter(x, k) && IsLetter(y, k)
  }

  lemma LowerIff(x: char, y: char)
    ensures Lower(x) == Lower(y) <==> x == y || SameLetter(x, y)
  {
    if Lower(x) == Lower(y) && x != y {
      assert IsLetter(x, Lower(x) as int - 97) && IsLetter(y, Lower(x) as int - 97);
    }
  }

  // Texts are equal but for the case of letters exactly when they agree byte by byte, or
  // have the two forms of one letter.
  lemma EqualsIgnoringCaseIff(a: string, b: string)
    ensures EqualsIgnoringCase(a, b) <==>
            |a| == |b| && forall i :: 0 <= i < |a| ==> a[i] == b[i] || SameLetter(a[i], b[i])
  {
    hide Lower, SameLetter;
    if |a| == |b| {
      forall i | 0 <= i < |a| ensures Lower(a[i]) == Lower(b[i]) <==> a[i] == b[i] || SameLetter(a[i], b[i]) {
        LowerIff(a[i], b[i]);
      }
    }
  }
}
