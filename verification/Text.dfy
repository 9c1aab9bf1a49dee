/** Python's `strip` over the ASCII blanks. */
module Text {
  predicate IsSpace(c: char) {
    c == ' ' || c == '\t' || c == '\n' || c == '\r'
  }

  predicate Blank(s: string) {
    forall i :: 0 <= i < |s| ==> IsSpace(s[i])
  }

  function Strip(s: string): (r: string)
    ensures r == "" <==> Blank(s)
    ensures r != "" ==> !IsSpace(r[0]) && !IsSpace(r[|r| - 1])
    decreases |s|
  {
    if s == "" then ""
    else if IsSpace(s[0]) then
      assert s == [s[0]] + s[1..];
      Strip(s[1..])
    else if IsSpace(s[|s| - 1]) then Strip(s[..|s| - 1])
    else s
  }

  predicate BlankChar(c: char) {
    c in {' ', '\t', '\n', '\r'}
  }

  ghost predicate AllBlank(s: string) {
    forall i :: 0 <= i < |s| ==> BlankChar(s[i])
  }

  /** The part of a text from its first to its last character that is not blank. */
  ghost predicate Inner(s: string, r: string, a: nat, b: nat) {
    && a < b <= |s| && r == s[a..b] && !BlankChar(s[a]) && !BlankChar(s[b - 1])
    && forall i :: 0 <= i < |s| && (i < a || b <= i) ==> BlankChar(s[i])
  }

  lemma {:induction false} InnerAfter(s: string, r: string, a: nat, b: nat)
    requires s != "" && BlankChar(s[0]) && Inner(s[1..], r, a, b)
    ensures Inner(s, r, a + 1, b + 1)
  {
    assert forall i :: 1 <= i < |s| ==> s[i] == s[1..][i - 1];
    assert s[a + 1..b + 1] == s[1..][a..b];
  }

  lemma {:induction false} InnerBefore(s: string, r: string, a: nat, b: nat)
    requires s != "" && BlankChar(s[|s| - 1]) && Inner(s[..|s| - 1], r, a, b)
    ensures Inner(s, r, a, b)
  {
    assert s[a..b] == s[..|s| - 1][a..b];
  }

  lemma {:induction false} StripIsInner(s: string) returns (a: nat, b: nat)
    requires !AllBlank(s)
    ensures Inner(s, Strip(s), a, b)
    decreases |s|
  {
    if IsSpace(s[0]) {
      assert s == [s[0]] + s[1..];
      var a', b' := StripIsInner(s[1..]);
      InnerAfter(s, Strip(s[1..]), a', b');
      a, b := a' + 1, b' + 1;
    } else if IsSpace(s[|s| - 1]) {
      assert s == s[..|s| - 1] + [s[|s| - 1]];
      a, b := StripIsInner(s[..|s| - 1]);
      InnerBefore(s, Strip(s[..|s| - 1]), a, b);
    } else {
      a, b := 0, |s|;
    }
  }
}
