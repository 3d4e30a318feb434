/**
 The hash of an audit row. SHA-256 is modelled as injective and acyclic: a digest is a
 symbol that holds the text it was taken of. A database value is a sequence of
 characters and digests, a digest's hex digits counting as one symbol. Columns may hold
 any such value, as after tampering.
 */
module AuditHash {
  import opened Text

  type Instant = int

  datatype Symbol = Ch(c: char) | Digest(input: seq<Symbol>)
  type Value = seq<Symbol>

  const SEPARATOR := Ch('\U{001F}')

  function Lift(s: string): Value {
    seq(|s|, i requires 0 <= i < |s| => Ch(s[i]))
  }

  lemma LiftInjective(s: string, t: string)
    requires Lift(s) == Lift(t)
    ensures s == t
  {
    assert |s| == |t|;
    forall i | 0 <= i < |s| ensures s[i] == t[i] {
      assert Lift(s)[i] == Lift(t)[i];
    }
  }

  /** The hashed columns in order: six, the actor chain, six more, and the creation time. */
  datatype Event = Event(head: seq<Value>, actorChain: seq<Value>, tail: seq<Value>, createdAt: Instant)

  function ActorText(e: Event): Value {
    Join(e.actorChain, Lift(","))
  }

  function Columns(e: Event): seq<Value> {
    e.head + [ActorText(e)] + e.tail + [Lift(Itoa(e.createdAt))]
  }

  /** The predecessor's hash and the columns, in one text with separators between. */
  function HashedText(prev: Value, e: Event): Value {
    Join([prev] + Columns(e), [SEPARATOR])
  }

  function RowHash(prev: Value, e: Event): Value {
    [Digest(HashedText(prev, e))]
  }

  // ---- what the hash covers ------------------------------------------------

  predicate SeparatorFree(v: Value) {
    SEPARATOR !in v
  }

  /** The table's columns, whatever they hold. */
  predicate Shaped(e: Event) {
    |e.head| == 6 && |e.tail| == 6
  }

  predicate Columnar(e: Event) {
    Shaped(e) && forall v <- Columns(e) :: SeparatorFree(v)
  }

  predicate SameColumns(d: Event, e: Event) {
    d.head == e.head && ActorText(d) == ActorText(e) && d.tail == e.tail && d.createdAt == e.createdAt
  }

  function Separators(v: Value): nat {
    if v == [] then 0 else (if v[0] == SEPARATOR then 1 else 0) + Separators(v[1..])
  }

  lemma {:induction false} NoSeparators(v: Value)
    ensures SeparatorFree(v) <==> Separators(v) == 0
  {
    if v != [] {
      NoSeparators(v[1..]);
      assert v == [v[0]] + v[1..];
    }
  }

  lemma {:induction false} SeparatorsConcat(a: Value, b: Value)
    ensures Separators(a + b) == Separators(a) + Separators(b)
  {
    if a == [] {
      assert a + b == b;
    } else {
      assert (a + b)[1..] == a[1..] + b;
      SeparatorsConcat(a[1..], b);
    }
  }

  /** A join has one separator between parts, and others only where a part holds one. */
  lemma {:induction false} SeparatorsOfJoin(parts: seq<Value>)
    requires parts != []
    ensures Separators(Join(parts, [SEPARATOR])) >= |parts| - 1
    ensures Separators(Join(parts, [SEPARATOR])) == |parts| - 1 <==> forall v <- parts :: SeparatorFree(v)
  {
    NoSeparators(parts[0]);
    if |parts| > 1 {
      var rest := Join(parts[1..], [SEPARATOR]);
      SeparatorsOfJoin(parts[1..]);
      SeparatorsConcat(parts[0], [SEPARATOR]);
      SeparatorsConcat(parts[0] + [SEPARATOR], rest);
      assert Separators([SEPARATOR]) == 1 by {
        assert [SEPARATOR][1..] == [];
      }
      assert forall v :: v in parts <==> v == parts[0] || v in parts[1..];
    }
  }

  /** Parts without separators are told apart from any other list as long, even one that hides separators. */
  lemma {:induction false} JoinInjective(a: seq<Value>, b: seq<Value>)
    requires |a| == |b| && Join(a, [SEPARATOR]) == Join(b, [SEPARATOR])
    requires forall v <- a :: SeparatorFree(v)
    ensures a == b
  {
    if |a| > 1 {
      SeparatorsOfJoin(a);
      SeparatorsOfJoin(b);
      assert SeparatorFree(a[0]) && SeparatorFree(b[0]);
      SplitFirst(a[0], Join(a[1..], [SEPARATOR]), b[0], Join(b[1..], [SEPARATOR]), SEPARATOR);
      JoinInjective(a[1..], b[1..]);
      assert a == [a[0]] + a[1..] && b == [b[0]] + b[1..];
    }
  }

  lemma ColumnsDiffer(d: Event, e: Event)
    requires Shaped(d) && Shaped(e)
    ensures Columns(d) == Columns(e) <==> SameColumns(d, e)
  {
    var a, b := Columns(d), Columns(e);
    if a == b {
      assert a[..6] == d.head && b[..6] == e.head;
      assert a[7..13] == d.tail && b[7..13] == e.tail;
      assert a[6] == ActorText(d) && b[6] == ActorText(e);
      assert a[13] == Lift(Itoa(d.createdAt)) && b[13] == Lift(Itoa(e.createdAt));
      LiftInjective(Itoa(d.createdAt), Itoa(e.createdAt));
      ItoaInjective(d.createdAt, e.createdAt);
    }
  }

  /**
   A row whose columns and predecessor hash hold no separator hashes like another, which
   may hold anything, exactly when predecessor and columns agree, actor chains as joined text.
   */
  lemma HashCoversColumns(p: Value, d: Event, q: Value, e: Event)
    requires SeparatorFree(p) && Columnar(d) && Shaped(e)
    ensures RowHash(p, d) == RowHash(q, e) <==> p == q && SameColumns(d, e)
  {
    var a, b := [p] + Columns(d), [q] + Columns(e);
    ColumnsDiffer(d, e);
    if RowHash(p, d) == RowHash(q, e) {
      JoinInjective(a, b);
      assert a[0] == p && b[0] == q && a[1..] == Columns(d) && b[1..] == Columns(e);
    }
  }

  /** So one actor named "a,b" and two named "a" and "b" are not told apart. */
  lemma ActorChainsCanCollide(prev: Value, e: Event)
    ensures RowHash(prev, e.(actorChain := [Lift("a,b")])) == RowHash(prev, e.(actorChain := [Lift("a"), Lift("b")]))
  {
    assert Join([Lift("a"), Lift("b")], Lift(",")) == Lift("a,b") by {
      assert [Lift("a"), Lift("b")][1..] == [Lift("b")];
    }
  }

  /** Nor, where a column does hold a separator, is what stands before it from the predecessor hash. */
  lemma SeparatorsCanCollide(prev: Value, x: Value, y: Value, e: Event)
    requires Shaped(e) && e.head[0] == x + [SEPARATOR] + y
    ensures RowHash(prev, e) == RowHash(prev + [SEPARATOR] + x, e.(head := [y] + e.head[1..]))
  {
    var f := e.(head := [y] + e.head[1..]);
    var a, b := [prev] + Columns(e), [prev + [SEPARATOR] + x] + Columns(f);
    assert a[2..] == b[2..] && a[1] == x + [SEPARATOR] + y && b[1] == y;
    JoinTwo(a);
    JoinTwo(b);
    var rest := Join(a[2..], [SEPARATOR]);
    assert prev + [SEPARATOR] + ((x + [SEPARATOR] + y) + [SEPARATOR] + rest)
        == (prev + [SEPARATOR] + x) + [SEPARATOR] + (y + [SEPARATOR] + rest);
  }

  lemma JoinTwo(parts: seq<Value>)
    requires |parts| > 2
    ensures Join(parts, [SEPARATOR])
            == parts[0] + [SEPARATOR] + (parts[1] + [SEPARATOR] + Join(parts[2..], [SEPARATOR]))
  {
    assert parts[1..][1..] == parts[2..];
  }

  // ---- the creation time ---------------------------------------------------

  lemma {:induction false} JoinEndsWithLast(parts: seq<Value>)
    requires |parts| > 1
    ensures Join(parts, [SEPARATOR]) == Join(parts[..|parts| - 1], [SEPARATOR]) + [SEPARATOR] + parts[|parts| - 1]
  {
    var n := |parts| - 1;
    if n == 1 {
      assert parts[1..] == [parts[1]] && parts[..1] == [parts[0]];
    } else {
      JoinEndsWithLast(parts[1..]);
      assert parts[1..][..n - 1] == parts[..n][1..];
      assert parts[1..][n - 1] == parts[n];
    }
  }

  lemma TimeIsSeparatorFree(t: Instant)
    ensures SeparatorFree(Lift(Itoa(t)))
  {
    ItoaCharacters(t);
    forall i | 0 <= i < |Itoa(t)| ensures Lift(Itoa(t))[i] != SEPARATOR {
      assert Itoa(t)[i] in Itoa(t);
    }
  }

  /** The last column, the creation time, is covered whatever the others hold. */
  lemma HashCoversTime(p: Value, d: Event, q: Value, e: Event)
    requires RowHash(p, d) == RowHash(q, e)
    ensures d.createdAt == e.createdAt
  {
    var a, b := [p] + Columns(d), [q] + Columns(e);
    var s, t := Lift(Itoa(d.createdAt)), Lift(Itoa(e.createdAt));
    assert a[|a| - 1] == s && b[|b| - 1] == t;
    JoinEndsWithLast(a);
    JoinEndsWithLast(b);
    TimeIsSeparatorFree(d.createdAt);
    TimeIsSeparatorFree(e.createdAt);
    SplitLast(Join(a[..|a| - 1], [SEPARATOR]), s, Join(b[..|b| - 1], [SEPARATOR]), t, SEPARATOR);
    LiftInjective(Itoa(d.createdAt), Itoa(e.createdAt));
    ItoaInjective(d.createdAt, e.createdAt);
  }

  // ---- no cycles -----------------------------------------------------------

  function Max(m: nat, n: nat): nat { if m <= n then n else m }

  /** How deeply digests nest in the value. */
  function Depth(v: Value): nat {
    if v == [] then 0 else Max(SymbolDepth(v[0]), Depth(v[1..]))
  }

  function SymbolDepth(s: Symbol): nat {
    match s
    case Ch(_) => 0
    case Digest(input) => Depth(input) + 1
  }

  lemma {:induction false} DepthConcat(a: Value, b: Value)
    ensures Depth(a + b) == Max(Depth(a), Depth(b))
  {
    if a == [] {
      assert a + b == b;
    } else {
      assert (a + b)[1..] == a[1..] + b;
      DepthConcat(a[1..], b);
    }
  }

  /** A row's hash nests deeper than its predecessor's. */
  lemma HashIsDeeper(prev: Value, e: Event)
    ensures Depth(RowHash(prev, e)) > Depth(prev)
  {
    var parts := [prev] + Columns(e);
    var rest := Join(parts[1..], [SEPARATOR]);
    assert HashedText(prev, e) == prev + [SEPARATOR] + rest;
    DepthConcat(prev, [SEPARATOR]);
    DepthConcat(prev + [SEPARATOR], rest);
    assert RowHash(prev, e)[1..] == [];
  }
}
