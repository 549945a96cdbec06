/** The code-point order in which Python compares strings. */
module Names {

  predicate NameLeq(a: string, b: string) {
    a == [] || (b != [] && (a[0] < b[0] || (a[0] == b[0] && NameLeq(a[1..], b[1..]))))
  }

  lemma {:induction false} NameLeqTotal(a: string, b: string)
    ensures NameLeq(a, b) || NameLeq(b, a)
    ensures NameLeq(a, b) && NameLeq(b, a) ==> a == b
  {
    if a != [] && b != [] && a[0] == b[0] {
      NameLeqTotal(a[1..], b[1..]);
      assert a == [a[0]] + a[1..] && b == [b[0]] + b[1..];
    }
  }

  /** Said outright: the first is a beginning of the second, or smaller where they first differ. */
  lemma {:induction false} NameLeqIff(a: string, b: string)
    ensures NameLeq(a, b) <==> a <= b || exists i :: FirstDiffers(a, b, i) && a[i] < b[i]
  {
    if a != [] && b != [] {
      if a[0] == b[0] {
        NameLeqIff(a[1..], b[1..]);
        LaterDiffers(a, b);
        assert a <= b <==> a[1..] <= b[1..] by { assert a == [a[0]] + a[1..] && b == [b[0]] + b[1..]; }
      } else {
        assert FirstDiffers(a, b, 0);
      }
    }
  }

  predicate FirstDiffers(a: string, b: string, i: int) {
    0 <= i < |a| && i < |b| && a[i] != b[i] && a[..i] == b[..i]
  }

  lemma LaterDiffers(a: string, b: string)
    requires a != [] && b != [] && a[0] == b[0]
    ensures forall i :: FirstDiffers(a, b, i) ==> i > 0 && FirstDiffers(a[1..], b[1..], i - 1)
    ensures forall i :: FirstDiffers(a[1..], b[1..], i) ==> FirstDiffers(a, b, i + 1)
  {
    forall i | FirstDiffers(a, b, i) ensures i > 0 && FirstDiffers(a[1..], b[1..], i - 1) {
      assert a[1..][..i - 1] == a[..i][1..] && b[1..][..i - 1] == b[..i][1..];
    }
    forall i | FirstDiffers(a[1..], b[1..], i) ensures FirstDiffers(a, b, i + 1) {
      assert a[..i + 1] == [a[0]] + a[1..][..i] && b[..i + 1] == [b[0]] + b[1..][..i];
    }
  }

  lemma {:induction false} NameLeqTransitive(a: string, b: string, c: string)
    requires NameLeq(a, b) && NameLeq(b, c)
    ensures NameLeq(a, c)
  {
    if a != [] && a[0] == b[0] == c[0] {
      NameLeqTransitive(a[1..], b[1..], c[1..]);
    }
  }
}
