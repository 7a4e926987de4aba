/**
 * Packed little-endian records described by the widths of their fields.
 * `#[repr(C, packed)]` lays the fields out in declaration order, each
 * directly after the previous one with no padding; the byte view of such a
 * record is the concatenation of its fields' little-endian encodings.
 */
module Layout {
  import opened Bytes

  /** Total size in bytes of a packed record with these field widths. */
  function Size(widths: seq<nat>): nat
  {
    if widths == [] then 0 else widths[0] + Size(widths[1..])
  }

  /** Sizes add up when two field lists are laid end to end. */
  lemma {:induction false} SizeAppend(w1: seq<nat>, w2: seq<nat>)
    ensures Size(w1 + w2) == Size(w1) + Size(w2)
  {
    if w1 == [] {
      assert w1 + w2 == w2;
    } else {
      assert (w1 + w2)[1..] == w1[1..] + w2;
      SizeAppend(w1[1..], w2);
    }
  }

  /** Byte offset of field `i`: the sum of the widths before it. */
  function Offset(widths: seq<nat>, i: nat): nat
    requires i <= |widths|
  {
    Size(widths[..i])
  }

  /** Every value fits in its field's width. */
  predicate Fits(vals: seq<nat>, widths: seq<nat>)
  {
    |vals| == |widths| && forall i :: 0 <= i < |vals| ==> vals[i] < Pow256(widths[i])
  }

  /** The byte view of a packed record whose fields hold `vals`. */
  function Serialize(vals: seq<nat>, widths: seq<nat>): (b: seq<u8>)
    requires |vals| == |widths|
  {
    if widths == [] then [] else LeBytes(vals[0], widths[0]) + Serialize(vals[1..], widths[1..])
  }

  /** The byte view is exactly as long as the record: fields are packed with no padding. */
  lemma {:induction false} SerializeLength(vals: seq<nat>, widths: seq<nat>)
    requires |vals| == |widths|
    ensures |Serialize(vals, widths)| == Size(widths)
  {
    if widths != [] {
      SerializeLength(vals[1..], widths[1..]);
    }
  }

  /** The field values read back from the byte view of a packed record. */
  function Parse(b: seq<u8>, widths: seq<nat>): (vals: seq<nat>)
    requires |b| == Size(widths)
    ensures Fits(vals, widths)
  {
    if widths == [] then []
    else [FromLe(b[..widths[0]])] + Parse(b[widths[0]..], widths[1..])
  }

  /** Reading back a serialised record gives the values written. */
  lemma {:induction false} ParseSerialize(vals: seq<nat>, widths: seq<nat>)
    requires Fits(vals, widths)
    ensures |Serialize(vals, widths)| == Size(widths) && Parse(Serialize(vals, widths), widths) == vals
  {
    SerializeLength(vals, widths);
    if widths != [] {
      var b := Serialize(vals, widths);
      assert b[..widths[0]] == LeBytes(vals[0], widths[0]);
      assert b[widths[0]..] == Serialize(vals[1..], widths[1..]);
      FromLeBytes(vals[0], widths[0]);
      assert Fits(vals[1..], widths[1..]) by {
        forall i | 0 <= i < |vals| - 1 ensures vals[1..][i] < Pow256(widths[1..][i]) {
          assert vals[1..][i] == vals[i + 1];
        }
      }
      ParseSerialize(vals[1..], widths[1..]);
    }
  }

  /** Every byte string of the record's size is the view of the values it parses to. */
  lemma {:induction false} SerializeParse(b: seq<u8>, widths: seq<nat>)
    requires |b| == Size(widths)
    ensures Serialize(Parse(b, widths), widths) == b
  {
    if widths != [] {
      var vals := Parse(b, widths);
      assert vals[1..] == Parse(b[widths[0]..], widths[1..]);
      LeBytesFromLe(b[..widths[0]]);
      SerializeParse(b[widths[0]..], widths[1..]);
      assert b == b[..widths[0]] + b[widths[0]..];
    }
  }

  /** The first field's bytes come first, followed by the rest of the record. */
  lemma SerializeCons(x: nat, vals: seq<nat>, wx: nat, widths: seq<nat>)
    requires |vals| == |widths|
    ensures Serialize([x] + vals, [wx] + widths) == LeBytes(x, wx) + Serialize(vals, widths)
  {
    assert ([x] + vals)[1..] == vals;
    assert ([wx] + widths)[1..] == widths;
  }

  /** Field `i` occupies exactly the bytes from its offset on, for its width. */
  lemma {:induction false} FieldAt(vals: seq<nat>, widths: seq<nat>, i: nat)
    requires |vals| == |widths| && i < |widths|
    ensures Offset(widths, i) + widths[i] <= Size(widths) == |Serialize(vals, widths)|
    ensures Serialize(vals, widths)[Offset(widths, i)..Offset(widths, i) + widths[i]]
            == LeBytes(vals[i], widths[i])
  {
    SerializeLength(vals, widths);
    var b := Serialize(vals, widths);
    if i == 0 {
      assert widths[..0] == [];
    } else {
      FieldAt(vals[1..], widths[1..], i - 1);
      assert widths[1..][..i - 1] == widths[..i][1..];
      assert Offset(widths, i) == widths[0] + Offset(widths[1..], i - 1);
      var rest := Serialize(vals[1..], widths[1..]);
      SerializeLength(vals[1..], widths[1..]);
      assert b == LeBytes(vals[0], widths[0]) + rest;
      assert b[Offset(widths, i)..Offset(widths, i) + widths[i]]
          == rest[Offset(widths[1..], i - 1)..Offset(widths[1..], i - 1) + widths[1..][i - 1]];
    }
  }

  /** Two packed records laid end to end are one packed record. */
  lemma {:induction false} SerializeAppend(v1: seq<nat>, w1: seq<nat>, v2: seq<nat>, w2: seq<nat>)
    requires |v1| == |w1| && |v2| == |w2|
    ensures Serialize(v1 + v2, w1 + w2) == Serialize(v1, w1) + Serialize(v2, w2)
  {
    if w1 != [] {
      assert (v1 + v2)[1..] == v1[1..] + v2;
      assert (w1 + w2)[1..] == w1[1..] + w2;
      SerializeAppend(v1[1..], w1[1..], v2, w2);
    } else {
      assert v1 + v2 == v2 && w1 + w2 == w2;
    }
  }

  /** A record whose fields are all zero has an all-zero byte view. */
  lemma {:induction false} SerializeZeros(vals: seq<nat>, widths: seq<nat>)
    requires |vals| == |widths|
    requires forall i :: 0 <= i < |vals| ==> vals[i] == 0
    ensures Serialize(vals, widths) == Zeros(Size(widths))
  {
    if widths != [] {
      LeBytesZero(widths[0]);
      assert forall i :: 0 <= i < |vals| - 1 ==> vals[1..][i] == vals[i + 1];
      SerializeZeros(vals[1..], widths[1..]);
      assert Zeros(Size(widths)) == Zeros(widths[0]) + Zeros(Size(widths[1..]));
    }
  }
}
