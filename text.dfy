/** The two pieces of Go's library text handling the registry relies on. */
module Text {

  /** filepath.Base on a Unix system: the last element of a path, trailing slashes ignored. */
  function Base(path: string): (b: string)
    ensures b != ""
  {
    if path == "" then "."
    else
      var p := TrimTrailingSlashes(path);
      if p == "" then "/" else LastElement(p)
  }

  /** The path without its trailing slashes: a prefix of `p`, followed in `p` only by slashes. */
  function TrimTrailingSlashes(p: string): (q: string)
    ensures |q| <= |p| && q == p[..|q|]
    ensures q == "" || q[|q| - 1] != '/'
    ensures forall i :: |q| <= i < |p| ==> p[i] == '/'
  {
    if p != "" && p[|p| - 1] == '/' then TrimTrailingSlashes(p[..|p| - 1]) else p
  }

  /** The text after the last slash of `p`. */
  function LastElement(p: string): (e: string)
    ensures p != "" && p[|p| - 1] != '/' ==> e != ""
    ensures forall i :: 0 <= i < |e| ==> e[i] != '/'
  {
    if p == "" || p[|p| - 1] == '/' then "" else LastElement(p[..|p| - 1]) + [p[|p| - 1]]
  }

  predicate NoSlash(s: string)
  {
    forall i :: 0 <= i < |s| ==> s[i] != '/'
  }

  lemma {:induction false} LastElementOf(dir: string, elem: string)
    requires NoSlash(elem)
    ensures LastElement(dir + "/" + elem) == elem
    ensures dir == "" ==> LastElement(elem) == elem
  {
    if elem != "" {
      var p := dir + "/" + elem;
      var front := elem[..|elem| - 1];
      LastElementOf(dir, front);
      assert p[..|p| - 1] == dir + "/" + front;
      assert front + [elem[|elem| - 1]] == elem;
      if dir == "" {
        assert elem[..|elem| - 1] == front;
      }
    } else {
      assert (dir + "/" + elem)[|dir + "/" + elem| - 1] == '/';
    }
  }

  /** The base of a path is its last slash-separated element. */
  lemma BaseOfPath(dir: string, elem: string)
    requires elem != "" && NoSlash(elem)
    ensures Base(dir + "/" + elem) == elem
    ensures Base(elem) == elem
  {
    LastElementOf(dir, elem);
    LastElementOf("", elem);
    var p := dir + "/" + elem;
    assert p[|p| - 1] == elem[|elem| - 1] != '/';
    assert TrimTrailingSlashes(elem) == elem;
  }

  function DigitChar(d: nat): char
    requires d < 10
  {
    (48 + d) as char
  }

  predicate IsDigits(s: string)
  {
    forall i :: 0 <= i < |s| ==> '0' <= s[i] <= '9'
  }

  /** The number a text of decimal digits denotes, most significant digit first. */
  function DigitsValue(s: string): nat
    requires IsDigits(s)
  {
    if s == [] then 0 else DigitsValue(s[..|s| - 1]) * 10 + (s[|s| - 1] as int - 48)
  }

  /** The decimal text of `n`, as fmt's %d writes it: digits without a leading zero. */
  function NatToString(n: nat): (s: string)
    ensures s != "" && IsDigits(s)
    ensures s[0] == '0' ==> s == "0"
  {
    if n < 10 then [DigitChar(n)] else NatToString(n / 10) + [DigitChar(n % 10)]
  }

  /** The decimal text denotes the number it was made from. */
  lemma {:induction false} NatToStringValue(n: nat)
    ensures DigitsValue(NatToString(n)) == n
  {
    if n >= 10 {
      NatToStringValue(n / 10);
      var s := NatToString(n);
      assert s[..|s| - 1] == NatToString(n / 10);
    }
  }

  /** Distinct numbers have distinct decimal texts. */
  lemma NatToStringInjective(m: nat, n: nat)
    requires NatToString(m) == NatToString(n)
    ensures m == n
  {
    NatToStringValue(m);
    NatToStringValue(n);
  }
}
