/** Rule and variable names, ordered as strcmp orders them. */
module Names {

  /** The sign of C's strcmp on two strings without embedded zero bytes. */
  function Strcmp(a: string, b: string): (r: int)
    ensures -1 <= r <= 1
  {
    if a == [] then (if b == [] then 0 else -1)
    else if b == [] then 1
    else if a[0] != b[0] then (if a[0] < b[0] then -1 else 1)
    else Strcmp(a[1..], b[1..])
  }

  predicate Less(a: string, b: string) {
    Strcmp(a, b) < 0
  }

  lemma {:induction false} StrcmpSign(a: string, b: string)
    ensures Strcmp(a, b) == 0 <==> a == b
    ensures Strcmp(a, b) == -Strcmp(b, a)
  {
    if a != [] && b != [] {
      StrcmpSign(a[1..], b[1..]);
      assert a == [a[0]] + a[1..] && b == [b[0]] + b[1..];
    }
  }

  lemma {:induction false} LessTransitive(a: string, b: string, c: string)
    requires Less(a, b) && Less(b, c)
    ensures Less(a, c)
  {
    if a != [] && a[0] == b[0] && b[0] == c[0] {
      LessTransitive(a[1..], b[1..], c[1..]);
    }
  }

  /** k is where a and b part: a ends there and b goes on, or the character of a is the lesser. */
  predicate Parts(a: string, b: string, k: nat) {
    k <= |a| && k < |b| && a[..k] == b[..k] && (k < |a| ==> a[k] < b[k])
  }

  lemma PartsNext(a: string, b: string, k: nat)
    requires a != [] && b != [] && a[0] == b[0]
    ensures Parts(a[1..], b[1..], k) <==> Parts(a, b, k + 1)
  {
    if k < |b| - 1 && k <= |a| - 1 {
      assert a[..k + 1] == [a[0]] + a[1..][..k] && b[..k + 1] == [b[0]] + b[1..][..k];
      assert a[..k + 1][1..] == a[1..][..k] && b[..k + 1][1..] == b[1..][..k];
    }
  }

  lemma FirstSame(a: string, b: string, k: nat)
    ensures Parts(a, b, k) && k > 0 ==> a != [] && b != [] && a[0] == b[0]
  {
    if Parts(a, b, k) && k > 0 {
      assert a[..k][0] == a[0] && b[..k][0] == b[0];
    }
  }

  /** A name is less if it is a proper beginning of the other, or has the lesser character where they first differ. */
  lemma {:induction false} LessMeans(a: string, b: string)
    ensures Less(a, b) <==> exists k: nat :: Parts(a, b, k)
  {
    if a == [] || b == [] || a[0] != b[0] {
      if Less(a, b) {
        assert Parts(a, b, 0);
      }
      forall k: nat | Parts(a, b, k)
        ensures k == 0
      {
        FirstSame(a, b, k);
      }
    } else {
      LessMeans(a[1..], b[1..]);
      if Less(a, b) {
          var k: nat :| Parts(a[1..], b[1..], k);
        PartsNext(a, b, k);
      }
      forall k: nat | Parts(a, b, k)
        ensures Less(a, b)
      {
        if k > 0 { PartsNext(a, b, k - 1); }
      }
    }
  }
}
