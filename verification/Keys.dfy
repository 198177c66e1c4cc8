/** Dictionary keys made of two texts and a separator between them. */
module Keys {
  /** Such a key can be taken apart when neither first text holds the separator. */
  lemma JoinIsInjective(a: string, b: string, c: string, d: string, separator: char)
    requires separator !in a && separator !in c
    requires a + [separator] + b == c + [separator] + d
    ensures a == c && b == d
  {
    var x, y := a + [separator] + b, c + [separator] + d;
    assert x[|a|] == separator && y[|c|] == separator;
    assert forall i :: 0 <= i < |a| ==> x[i] == a[i] != separator;
    assert forall i :: 0 <= i < |c| ==> y[i] == c[i] != separator;
    assert |a| == |c|;
    assert a == x[..|a|] && c == y[..|c|];
    assert b == x[|a| + 1..] && d == y[|c| + 1..];
  }
}
