/** Values shared by every component: bytes, 32-byte hashes and machine-integer bounds. */
module Types {

  datatype Option<+T> = None | Some(value: T)

  type Byte = x: int | 0 <= x < 256
  type Bytes = seq<Byte>

  /** A `std::string` of the source: a sequence of bytes. */
  type Text = Bytes

  const U16: nat := 0x1_0000
  const U32: nat := 0x1_0000_0000
  const U64: nat := 0x1_0000_0000_0000_0000

  type Hash = h: Bytes | |h| == 32 witness Zeros(32)

  function Zeros(n: nat): (z: Bytes)
    ensures |z| == n
    ensures forall i :: 0 <= i < n ==> z[i] == 0
  {
    seq(n, _ => 0)
  }

  /** The all-zero hash: "no parent". */
  const ZERO: Hash := Zeros(32)

  lemma Associates(a: Bytes, b: Bytes, c: Bytes)
    ensures (a + b) + c == a + (b + c)
  {
  }

  lemma KeysUpdate<T, U>(m: map<T, U>, k: T, v: U)
    ensures m[k := v].Keys == m.Keys + {k}
  {
  }

  ghost predicate Distinct<T>(s: seq<T>) {
    forall i, j :: 0 <= i < j < |s| ==> s[i] != s[j]
  }

  /** The elements of `s` at the positions `at`. */
  ghost function Pick<T>(s: seq<T>, at: seq<nat>): (r: seq<T>)
    requires forall k :: 0 <= k < |at| ==> at[k] < |s|
    ensures |r| == |at|
    ensures forall k :: 0 <= k < |at| ==> r[k] == s[at[k]]
  {
    seq(|at|, k requires 0 <= k < |at| => s[at[k]])
  }

  /** Distinct numbers below `n` are at most `n` many. */
  lemma Pigeonhole(s: seq<nat>, n: nat)
    requires Distinct(s)
    requires forall k :: 0 <= k < |s| ==> s[k] < n
    ensures |s| <= n
  {
    var used := set k | 0 <= k < |s| :: s[k];
    SizeOfDistinct(s);
    assert used <= Below(n);
    SubsetSize(used, Below(n));
  }

  ghost function Below(n: nat): (r: set<nat>)
    ensures |r| == n
    ensures forall i: nat :: i in r <==> i < n
  {
    if n == 0 then {} else Below(n - 1) + {n - 1}
  }

  lemma SizeOfDistinct(s: seq<nat>)
    requires Distinct(s)
    ensures |set k | 0 <= k < |s| :: s[k]| == |s|
  {
    if |s| > 0 {
      var front := s[..|s| - 1];
      SizeOfDistinct(front);
      var all := set k | 0 <= k < |s| :: s[k];
      var some := set k | 0 <= k < |front| :: front[k];
      assert all == some + {s[|s| - 1]} by {
        forall x | x in all ensures x in some + {s[|s| - 1]} {
          var k :| 0 <= k < |s| && s[k] == x;
          if k < |front| { assert front[k] == x; }
        }
        forall x | x in some ensures x in all {
          var k :| 0 <= k < |front| && front[k] == x;
          assert s[k] == x;
        }
      }
      assert s[|s| - 1] !in some;
    }
  }

  lemma SubsetSize<T>(a: set<T>, b: set<T>)
    requires a <= b
    ensures |a| <= |b|
  {
    assert b == a + (b - a);
  }
}
