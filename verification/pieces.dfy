/** Octet streams that come or go in pieces. */
module Pieces {
  import opened Bytes

  /** The stream the pieces make up. */
  function Flatten(parts: seq<seq<Byte>>): seq<Byte> {
    if parts == [] then [] else Flatten(parts[..|parts|-1]) + parts[|parts|-1]
  }

  lemma {:induction false} FlattenConcat(a: seq<seq<Byte>>, b: seq<seq<Byte>>)
    ensures Flatten(a + b) == Flatten(a) + Flatten(b)
  {
    if b == [] {
      assert a + b == a;
    } else {
      FlattenConcat(a, b[..|b|-1]);
      assert (a + b)[..|a + b| - 1] == a + b[..|b|-1];
    }
  }

  lemma FlattenOne(x: seq<Byte>)
    ensures Flatten([x]) == x
  {
    assert [x][..0] == [];
    assert Flatten([x]) == [] + x;
  }

  lemma FlattenHead(s: seq<seq<Byte>>)
    requires s != []
    ensures Flatten(s) == s[0] + Flatten(s[1..])
  {
    FlattenOne(s[0]);
    FlattenConcat([s[0]], s[1..]);
    assert [s[0]] + s[1..] == s;
  }

  lemma FlattenCons(s: seq<seq<Byte>>, i: nat)
    requires i < |s|
    ensures Flatten(s[i..]) == s[i] + Flatten(s[i + 1..])
  {
    FlattenHead(s[i..]);
    assert s[i..][1..] == s[i + 1..];
  }

  lemma FlattenSnoc(s: seq<seq<Byte>>, i: nat)
    requires i < |s|
    ensures Flatten(s[..i + 1]) == Flatten(s[..i]) + s[i]
  {
    assert s[..i + 1][..i] == s[..i];
  }

  lemma FlattenPrefix(s: seq<seq<Byte>>, i: nat)
    requires i <= |s|
    ensures Flatten(s[..i]) <= Flatten(s)
  {
    assert s == s[..i] + s[i..];
    FlattenConcat(s[..i], s[i..]);
  }

  lemma {:induction false} FlattenEmpty(s: seq<seq<Byte>>)
    requires forall i :: 0 <= i < |s| ==> s[i] == []
    ensures Flatten(s) == []
  {
    if s != [] { FlattenEmpty(s[..|s|-1]); }
  }

  lemma NothingAfter(s: seq<seq<Byte>>)
    ensures Flatten(s[|s|..]) == []
  {
  }
}
