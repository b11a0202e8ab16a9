// Shared vocabulary: optional and failing results, machine-integer limits, bytes, and
// the concatenation of a list of pieces.
module Base {

  datatype Option<+T> = None | Some(value: T)

  datatype Result<+T, +E> = Ok(value: T) | Err(error: E)

  type byte = b: int | 0 <= b < 256

  /** The machine integers that callers pass. */
  type u64 = x: nat | x < U64_LIMIT

  type i64 = x: int | -I64_LIMIT <= x < I64_LIMIT

  const U64_LIMIT := 0x1_0000_0000_0000_0000
  const I64_LIMIT := 0x8000_0000_0000_0000
  const U32_LIMIT := 0x1_0000_0000

  function Min(a: int, b: int): int {
    if a <= b then a else b
  }

  function Max(a: int, b: int): int {
    if a <= b then b else a
  }

  function Init<T>(s: seq<T>): seq<T>
    requires s != []
  {
    s[..|s| - 1]
  }

  function Last<T>(s: seq<T>): T
    requires s != []
  {
    s[|s| - 1]
  }

  lemma LastIsNot<T>(s: seq<T>, x: T)
    requires s != [] && x !in s
    ensures s == Init(s) + [Last(s)] && x !in Init(s) && Last(s) != x
  {
  }

  function First<T>(s: seq<T>, limit: nat): seq<T> {
    s[..Min(|s|, limit)]
  }

  /** The pieces of a list joined in order. */
  function Flatten<T>(pieces: seq<seq<T>>): seq<T> {
    if pieces == [] then [] else Flatten(Init(pieces)) + Last(pieces)
  }

  lemma FlattenSnoc<T>(pieces: seq<seq<T>>, piece: seq<T>)
    ensures Flatten(pieces + [piece]) == Flatten(pieces) + piece
  {
    assert Init(pieces + [piece]) == pieces;
  }

  lemma {:induction false} FlattenConcat<T>(a: seq<seq<T>>, b: seq<seq<T>>)
    ensures Flatten(a + b) == Flatten(a) + Flatten(b)
  {
    if b == [] {
      assert a + b == a;
    } else {
      FlattenConcat(a, Init(b));
      assert a + b == (a + Init(b)) + [Last(b)];
      FlattenSnoc(a + Init(b), Last(b));
    }
  }

  /** Piece `i` sits in the joined list right after the pieces before it. */
  lemma FlattenAt<T>(pieces: seq<seq<T>>, i: nat)
    requires i < |pieces|
    ensures |Flatten(pieces[..i])| + |pieces[i]| == |Flatten(pieces[..i + 1])| <= |Flatten(pieces)|
    ensures Flatten(pieces)[|Flatten(pieces[..i])|..|Flatten(pieces[..i + 1])|] == pieces[i]
  {
    assert pieces[..i + 1] == pieces[..i] + [pieces[i]];
    FlattenSnoc(pieces[..i], pieces[i]);
    assert pieces == pieces[..i + 1] + pieces[i + 1..];
    FlattenConcat(pieces[..i + 1], pieces[i + 1..]);
  }

  lemma {:induction false} MaxExists(s: set<nat>) returns (m: nat)
    requires s != {}
    ensures m in s
    ensures forall x :: x in s ==> x <= m
  {
    var x :| x in s;
    var rest := s - {x};
    assert s == {x} + rest;
    m := x;
    if rest != {} {
      var n := MaxExists(rest);
      m := Max(x, n);
    }
  }

  lemma MaxAttained(s: set<nat>)
    requires s != {}
    ensures exists m :: m in s && forall x :: x in s ==> x <= m
  {
    var m := MaxExists(s);
  }

  /** SQL's `COALESCE(MAX(..), default)`. */
  function MaxOr(s: set<nat>, default: nat): (m: nat)
    ensures forall x :: x in s ==> x <= m
    ensures if s == {} then m == default else m in s
  {
    if s == {} then default else
      MaxAttained(s);
      var m :| m in s && forall x :: x in s ==> x <= m;
      m
  }
}
