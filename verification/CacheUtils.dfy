/** Packing the fields of a record into one string and cutting it up again. */
module CacheUtils {
  /** pack_values. */
  function Pack(vs: seq<string>): string {
    if vs == [] then "" else vs[0] + Pack(vs[1..])
  }

  /** The pieces of width w, the last one possibly shorter. */
  function Unpack(s: string, w: nat): (vs: seq<string>)
    requires w > 0
    decreases |s|
  {
    if s == "" then []
    else if |s| <= w then [s]
    else [s[..w]] + Unpack(s[w..], w)
  }

  /** unpack_values. */
  method UnpackValues(packed: string, width: nat) returns (values: seq<string>)
    requires width > 0
    ensures values == Unpack(packed, width)
  {
    values := [];
    var start := 0;
    while start < |packed|
      invariant 0 <= start
      invariant values + (if start < |packed| then Unpack(packed[start..], width) else []) == Unpack(packed, width)
    {
      var piece := packed[start..if start + width <= |packed| then start + width else |packed|];
      var rest := packed[start..];
      assert piece == if |rest| <= width then rest else rest[..width];
      assert |rest| > width ==> rest[width..] == packed[start + width..];
      values := values + [piece];
      start := start + width;
    }
  }

  /** All fields of full width except that the last may be shorter, but not empty. */
  predicate FixedWidth(vs: seq<string>, w: nat) {
    && (forall i :: 0 <= i < |vs| - 1 ==> |vs[i]| == w)
    && (vs != [] ==> 1 <= |vs[|vs| - 1]| <= w)
  }

  /** Cutting up never loses or adds text. */
  lemma {:induction false} PackUnpack(s: string, w: nat)
    requires w > 0
    ensures Pack(Unpack(s, w)) == s && FixedWidth(Unpack(s, w), w)
    decreases |s|
  {
    if s == "" {
    } else if |s| <= w {
      assert Pack([s]) == s + Pack([]);
    } else {
      PackUnpack(s[w..], w);
      var vs := [s[..w]] + Unpack(s[w..], w);
      assert vs[1..] == Unpack(s[w..], w);
      assert s == s[..w] + s[w..];
    }
  }

  lemma UnpackStep(v: string, rest: string, w: nat)
    requires w > 0 && |v| == w && rest != ""
    ensures Unpack(v + rest, w) == [v] + Unpack(rest, w)
  {
    assert (v + rest)[..w] == v && (v + rest)[w..] == rest;
  }

  lemma {:induction false} UnpackPack(vs: seq<string>, w: nat)
    requires w > 0 && FixedWidth(vs, w)
    ensures Unpack(Pack(vs), w) == vs
  {
    if |vs| == 1 {
      assert vs[1..] == [] && Pack(vs) == vs[0];
    } else if vs != [] {
      var rest := vs[1..];
      assert rest[|rest| - 1] == vs[|vs| - 1];
      UnpackPack(rest, w);
      PackNonEmpty(rest);
      UnpackStep(vs[0], Pack(rest), w);
      assert vs == [vs[0]] + rest;
    }
  }

  lemma PackNonEmpty(vs: seq<string>)
    requires vs != [] && vs[|vs| - 1] != ""
    ensures Pack(vs) != ""
  {
    if |vs| > 1 { PackNonEmpty(vs[1..]); }
  }

  /** Packing can be undone exactly for records of fixed-width fields. */
  lemma UnpackPackExactly(vs: seq<string>, w: nat)
    requires w > 0
    ensures Unpack(Pack(vs), w) == vs <==> FixedWidth(vs, w)
  {
    PackUnpack(Pack(vs), w);
    if FixedWidth(vs, w) { UnpackPack(vs, w); }
  }
}
