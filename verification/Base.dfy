/** Types and small facts shared by the models of the individual components. */
module Base {

  datatype Option<+T> = None | Some(value: T)

  /** One byte of a buffer. */
  type byte = x: int | 0 <= x < 256

  /** The modulus of a Rust `u32`; `as u32` keeps the remainder. */
  const U32: int := 0x1_0000_0000

  type u32 = x: int | 0 <= x < 0x1_0000_0000

  /** A Rust `i64`. */
  type i64 = x: int | -0x8000_0000_0000_0000 <= x < 0x8000_0000_0000_0000

  /** How `localeCompare` ranks a text. Texts that it does not tell apart, such as canonically equivalent
      ones, have the same rank. Every total preorder of the texts embeds in the reals like this. */
  type Collation = string -> real

  ghost function Pick<T>(s: set<T>): (x: T)
    requires s != {}
    ensures x in s
  {
    var x :| x in s; x
  }

  /** The indices below n, as a set. */
  ghost function Below(n: nat): (s: set<int>)
    ensures forall i :: i in s <==> 0 <= i < n
  {
    if n == 0 then {} else Below(n - 1) + {n - 1}
  }

  lemma BelowCard(n: nat)
    ensures |Below(n)| == n
  {
    if n > 0 {
      BelowCard(n - 1);
      assert Below(n) == Below(n - 1) + {n - 1};
    }
  }

  /** A subset of a set with at least as many elements is the whole set. */
  lemma SubsetFull<T>(a: set<T>, b: set<T>)
    requires a <= b
    ensures |a| <= |b|
    ensures |a| == |b| <==> a == b
  {
    assert b == a + (b - a);
    if |b - a| == 0 {
      assert b - a == {};
    }
  }

  lemma {:induction false} LeastExists(s: set<int>)
    requires s != {}
    ensures exists k :: k in s && forall i :: i in s ==> k <= i
  {
    var x := Pick(s);
    if s != {x} {
      LeastExists(s - {x});
      var y :| y in s - {x} && forall i :: i in s - {x} ==> y <= i;
      var k := if x < y then x else y;
      assert forall i :: i in s ==> i == x || i in s - {x};
      assert k in s && forall i :: i in s ==> k <= i;
    }
  }
}
