/** The few PHP string functions the modifiers rely on: trim, strtolower and
    the emptiness test of empty(). */
module PhpString {

  /** The characters PHP's trim() strips by default: " \t\n\r\0\x0B". */
  predicate IsTrimmed(c: char) {
    c == ' ' || c == '\t' || c == '\n' || c == '\r' || c as int == 0 || c as int == 11
  }

  function TrimLeft(s: string): (r: string)
    ensures |r| <= |s| && r == s[|s| - |r|..]
    ensures r == [] || !IsTrimmed(r[0])
    ensures forall j :: 0 <= j < |s| - |r| ==> IsTrimmed(s[j])
  {
    if s != [] && IsTrimmed(s[0]) then TrimLeft(s[1..]) else s
  }

  function TrimRight(s: string): (r: string)
    ensures |r| <= |s| && r == s[..|r|]
    ensures r == [] || !IsTrimmed(r[|r| - 1])
    ensures forall j :: |r| <= j < |s| ==> IsTrimmed(s[j])
  {
    if s != [] && IsTrimmed(s[|s| - 1]) then TrimRight(s[..|s| - 1]) else s
  }

  /** trim($s): s with every leading and trailing trimmed character removed,
      and nothing else; what is kept starts where TrimLeft stops. */
  function Trim(s: string): (r: string)
    ensures r == [] || (!IsTrimmed(r[0]) && !IsTrimmed(r[|r| - 1]))
    ensures var i := |s| - |TrimLeft(s)|;
      && i + |r| <= |s| && r == s[i..i + |r|]
      && (forall j :: 0 <= j < i ==> IsTrimmed(s[j]))
      && (forall j :: i + |r| <= j < |s| ==> IsTrimmed(s[j]))
  {
    var left := TrimLeft(s);
    var r := TrimRight(left);
    TrimParts(s, left, r);
    r
  }

  /** A prefix r of a suffix left of s, with trimmed characters around it
      and untrimmed ones at its ends. */
  lemma TrimParts(s: string, left: string, r: string)
    requires |left| <= |s| && left == s[|s| - |left|..]
    requires left == [] || !IsTrimmed(left[0])
    requires forall j :: 0 <= j < |s| - |left| ==> IsTrimmed(s[j])
    requires |r| <= |left| && r == left[..|r|]
    requires r == [] || !IsTrimmed(r[|r| - 1])
    requires forall j :: |r| <= j < |left| ==> IsTrimmed(left[j])
    ensures r == [] || (!IsTrimmed(r[0]) && !IsTrimmed(r[|r| - 1]))
    ensures var i := |s| - |left|;
      && i + |r| <= |s| && r == s[i..i + |r|]
      && (forall j :: 0 <= j < i ==> IsTrimmed(s[j]))
      && (forall j :: i + |r| <= j < |s| ==> IsTrimmed(s[j]))
  {
    var i := |s| - |left|;
    assert r != [] ==> r[0] == left[0];
    assert forall j :: i + |r| <= j < |s| ==> s[j] == left[j - i];
  }

  /** strtolower on one character: ASCII letters only, as PHP 8.2 and later do. */
  function LowerChar(c: char): (d: char)
    ensures 'A' <= c <= 'Z' ==> 'a' <= d <= 'z'
    ensures !('A' <= c <= 'Z') ==> d == c
  {
    if 'A' <= c <= 'Z' then (c as int + 32) as char else c
  }

  function Lower(s: string): (r: string)
    ensures |r| == |s|
    ensures forall i :: 0 <= i < |s| ==> r[i] == LowerChar(s[i])
  {
    seq(|s|, i requires 0 <= i < |s| => LowerChar(s[i]))
  }

  /** empty($s) for a string: true for "" and for "0". */
  predicate IsEmpty(s: string) {
    s == "" || s == "0"
  }

  /** s consists of trimmed characters only. */
  predicate AllTrimmed(s: string) {
    forall j :: 0 <= j < |s| ==> IsTrimmed(s[j])
  }

  /** s is a "0" at position z with trimmed characters around it. */
  predicate LoneZero(s: string, z: int) {
    0 <= z < |s| && s[z] == '0' && forall j :: 0 <= j < |s| && j != z ==> IsTrimmed(s[j])
  }

  /** empty(trim($s)) holds exactly when s is made of trimmed characters
      only, or of trimmed characters around one "0". */
  lemma EmptyAfterTrim(s: string)
    ensures IsEmpty(Trim(s)) <==> AllTrimmed(s) || exists z :: LoneZero(s, z)
  {
    EmptyKept(s, |s| - |TrimLeft(s)|, Trim(s));
  }

  /** The same for any r found at position i of s, between trimmed
      characters and with untrimmed ends. */
  lemma EmptyKept(s: string, i: nat, r: string)
    requires i + |r| <= |s| && r == s[i..i + |r|]
    requires r == [] || (!IsTrimmed(r[0]) && !IsTrimmed(r[|r| - 1]))
    requires forall j :: 0 <= j < i ==> IsTrimmed(s[j])
    requires forall j :: i + |r| <= j < |s| ==> IsTrimmed(s[j])
    ensures IsEmpty(r) <==> AllTrimmed(s) || exists z :: LoneZero(s, z)
  {
    if r == "" {
      assert AllTrimmed(s);
    } else if r == "0" {
      assert LoneZero(s, i);
    } else {
      assert r[0] == s[i] && r[|r| - 1] == s[i + |r| - 1];
      NoLoneZero(s, i, |r|);
    }
  }

  /** Two untrimmed characters, or one that is not "0", rule out a lone "0". */
  lemma NoLoneZero(s: string, i: nat, n: nat)
    requires 1 <= n && i + n <= |s|
    requires !IsTrimmed(s[i]) && !IsTrimmed(s[i + n - 1])
    requires n > 1 || s[i] != '0'
    ensures !AllTrimmed(s) && forall z :: !LoneZero(s, z)
  {
  }
}
