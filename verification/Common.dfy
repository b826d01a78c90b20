/** Shared vocabulary: optional values, results and identifiers. */
module Common {

  datatype Option<+T> = None | Some(value: T)

  datatype Result<+T, +E> = Ok(value: T) | Err(error: E)

  /** A 128-bit identifier, ordered as its sixteen bytes are: most significant first. */
  newtype UUID = n: int | 0 <= n < 0x1_0000_0000_0000_0000_0000_0000_0000_0000

  const UUID_SPACE: nat := 0x1_0000_0000_0000_0000_0000_0000_0000_0000
  const NIL: UUID := 0

  /** The text of an identifier in a request: absent, well formed, or not parseable; a failed
      parse may leave behind an identifier made of what it had read. */
  datatype IdText = NoId | IdOf(id: UUID) | BadId(partial: UUID)

  /** The gRPC status codes the services answer with. */
  datatype Code = Unauthenticated | InvalidArgument | NotFound | PermissionDenied
                | FailedPrecondition | Internal | Unavailable

  function Reversed<T>(s: seq<T>): (r: seq<T>)
    ensures |r| == |s|
    ensures forall i :: 0 <= i < |s| ==> r[i] == s[|s| - 1 - i]
  {
    if s == [] then [] else Reversed(s[1..]) + [s[0]]
  }

  ghost predicate Distinct<T>(s: seq<T>) {
    forall i, j :: 0 <= i < j < |s| ==> s[i] != s[j]
  }

  ghost function Elements<T>(s: seq<T>): set<T> {
    set x | x in s
  }

  lemma Extend<T>(s: seq<T>, x: T)
    ensures Elements(s + [x]) == Elements(s) + {x}
    ensures Distinct(s + [x]) <==> Distinct(s) && x !in Elements(s)
  {
    var longer := s + [x];
    assert longer[|s|] == x && longer[..|s|] == s;
    if Distinct(longer) {
      forall i, j | 0 <= i < j < |s| ensures s[i] != s[j] {
        assert longer[i] != longer[j];
      }
      forall i | 0 <= i < |s| ensures s[i] != x {
        assert longer[i] != longer[|s|];
      }
    }
  }

  lemma ElementsOneMore<T>(s: seq<T>, i: nat)
    requires i < |s|
    ensures Elements(s[..i + 1]) == Elements(s[..i]) + {s[i]}
    ensures Distinct(s) ==> s[i] !in Elements(s[..i])
  {
    assert s[..i + 1] == s[..i] + [s[i]];
    Extend(s[..i], s[i]);
  }

  lemma ElementsOfEnds<T>(s: seq<T>)
    ensures Elements(s[..0]) == {} && Elements(s[..|s|]) == Elements(s)
  {
    assert s[..|s|] == s;
  }

  /** A sequence has at least as many places as elements, and as many when it is distinct. */
  lemma {:induction false} CountElements<T>(s: seq<T>)
    ensures |Elements(s)| <= |s|
    ensures Distinct(s) ==> |Elements(s)| == |s|
    decreases |s|
  {
    if s != [] {
      var front, last := s[..|s| - 1], s[|s| - 1];
      assert s == front + [last];
      CountElements(front);
      Extend(front, last);
    }
  }

  lemma Fewer<T>(a: set<T>, b: set<T>)
    requires a <= b
    ensures |a| <= |b|
    ensures a != b ==> |a| < |b|
  {
    assert b == a + (b - a);
  }

  /** The pigeonhole principle. */
  lemma Pigeonhole<T>(s: seq<T>, holes: seq<T>)
    requires Distinct(s) && forall x <- s :: x in holes
    ensures |s| <= |holes|
  {
    CountElements(s);
    CountElements(holes);
    Fewer(Elements(s), Elements(holes));
  }
}
