/** Data Storage images: the record cursor, validity, and order-independent containment. */
module DataStorage {
  import opened Wrappers
  import opened Octets

  const HEADER_LEN := 4

  /** An image the byte-wide cursors can walk. */
  type Image = s: seq<byte> | |s| <= 255

  // ---- specification ---------------------------------------------------

  /** Four header octets, the last of which counts the value octets that follow. */
  predicate WellFormedRecord(r: seq<byte>)
  {
    |r| >= 4 && |r| == 4 + (r[3] as int)
  }

  function Concat(records: seq<seq<byte>>): seq<byte>
  {
    if records == [] then [] else records[0] + Concat(records[1..])
  }

  predicate AllWellFormed(records: seq<seq<byte>>)
  {
    forall i :: 0 <= i < |records| ==> WellFormedRecord(records[i])
  }

  /** Length of the record at the front of `s`, if a whole one is there. */
  function FrontLen(s: seq<byte>): (n: Option<nat>)
    ensures n.Some? ==> HEADER_LEN <= n.value <= |s|
  {
    if |s| < HEADER_LEN || s[HEADER_LEN - 1] > |s| - HEADER_LEN then None
    else Some(HEADER_LEN + s[HEADER_LEN - 1])
  }

  function Parse(s: seq<byte>): Option<seq<seq<byte>>>
  {
    if s == [] then Some([])
    else match FrontLen(s)
      case None => None
      case Some(n) =>
        match Parse(s[n..])
        case None => None
        case Some(rest) => Some([s[..n]] + rest)
  }

  /** The search for one record: it stops at a match and fails on a torn image. */
  predicate Finds(actual: seq<byte>, record: seq<byte>)
  {
    if actual == [] || FrontLen(actual).None? then false
    else actual[..FrontLen(actual).value] == record || Finds(actual[FrontLen(actual).value..], record)
  }

  predicate Contains(actual: seq<byte>, expected: seq<byte>)
  {
    if expected == [] then true
    else if FrontLen(expected).None? then false
    else Finds(actual, expected[..FrontLen(expected).value])
         && Contains(actual, expected[FrontLen(expected).value..])
  }

  /** The verdict of a readback: containment between valid images, equality otherwise. */
  predicate Verifies(readback: seq<byte>, expected: seq<byte>)
  {
    if Parse(expected).Some? && Parse(readback).Some? then Contains(readback, expected) else readback == expected
  }

  // ---- the cursor loops ------------------------------------------------

  /** Parse the record at the cursor and advance past it. */
  method NextRecord(data: Image, pos: nat) returns (found: bool, next: nat)
    requires pos <= |data|
    ensures found <==> FrontLen(data[pos..]).Some?
    ensures next == if found then pos + FrontLen(data[pos..]).value else pos
  {
    if |data| - pos < HEADER_LEN {
      return false, pos;
    }
    var valueLen := data[pos + (HEADER_LEN - 1)];
    assert data[pos..][HEADER_LEN - 1] == valueLen;
    if valueLen > |data| - pos - HEADER_LEN {
      return false, pos;
    }
    return true, pos + HEADER_LEN + valueLen;
  }

  method ImageIsValid(data: Image) returns (valid: bool)
    ensures valid <==> Parse(data).Some?
  {
    var pos := 0;
    assert data[0..] == data;
    while pos < |data|
      invariant pos <= |data|
      invariant Parse(data).Some? <==> Parse(data[pos..]).Some?
      decreases |data| - pos
    {
      var found, next := NextRecord(data, pos);
      if !found {
        return false;
      }
      assert data[pos..][next - pos..] == data[next..];
      pos := next;
    }
    assert data[pos..] == [];
    return true;
  }

  method ImageContainsRecords(actual: Image, expected: Image) returns (contains: bool)
    ensures contains <==> Contains(actual, expected)
  {
    var expectedPos := 0;
    assert expected[0..] == expected;
    while expectedPos < |expected|
      invariant expectedPos <= |expected|
      invariant Contains(actual, expected) <==> Contains(actual, expected[expectedPos..])
      decreases |expected| - expectedPos
    {
      var ok, next := NextRecord(expected, expectedPos);
      if !ok {
        return false;
      }
      var record := expected[expectedPos..next];
      assert expected[expectedPos..][..next - expectedPos] == record;
      assert expected[expectedPos..][next - expectedPos..] == expected[next..];
      expectedPos := next;

      var actualPos := 0;
      var found := false;
      assert actual[0..] == actual;
      while actualPos < |actual|
        invariant actualPos <= |actual| && !found
        invariant Finds(actual, record) <==> Finds(actual[actualPos..], record)
        decreases |actual| - actualPos
      {
        var whole, after := NextRecord(actual, actualPos);
        if !whole {
          return false;
        }
        assert actual[actualPos..][..after - actualPos] == actual[actualPos..after];
        assert actual[actualPos..][after - actualPos..] == actual[after..];
        if actual[actualPos..after] == record {
          found := true;
          break;
        }
        actualPos := after;
      }
      if !found {
        assert actual[actualPos..] == [];
        return false;
      }
    }
    assert expected[expectedPos..] == [];
    return true;
  }

  // ---- what validity means ---------------------------------------------

  lemma {:induction false} ParseConcat(records: seq<seq<byte>>)
    requires AllWellFormed(records)
    ensures Parse(Concat(records)) == Some(records)
  {
    if records != [] {
      var s, r := Concat(records), records[0];
      ParseConcat(records[1..]);
      assert s[..|r|] == r && s[|r|..] == Concat(records[1..]);
      assert s[HEADER_LEN - 1] == r[HEADER_LEN - 1];
      assert records == [r] + records[1..];
    }
  }

  lemma {:induction false} ParsedIsConcat(s: seq<byte>)
    requires Parse(s).Some?
    ensures AllWellFormed(Parse(s).value) && Concat(Parse(s).value) == s
  {
    if s != [] {
      var n, records := FrontLen(s).value, Parse(s).value;
      ParsedIsConcat(s[n..]);
      assert records[0] == s[..n] && records[1..] == Parse(s[n..]).value;
      assert s == s[..n] + s[n..];
    }
  }

  /** Exactly the concatenations of well-formed records are accepted, and their parse is unique. */
  lemma ValidExactly(s: seq<byte>)
    ensures Parse(s).Some? <==> exists records :: AllWellFormed(records) && Concat(records) == s
    ensures forall records :: AllWellFormed(records) && Concat(records) == s ==> Parse(s) == Some(records)
  {
    if Parse(s).Some? {
      ParsedIsConcat(s);
    }
    forall records | AllWellFormed(records) && Concat(records) == s
      ensures Parse(s) == Some(records)
    {
      ParseConcat(records);
    }
  }

  // ---- what containment means ------------------------------------------

  lemma {:induction false} FindsExactly(actual: seq<byte>, record: seq<byte>)
    requires Parse(actual).Some?
    ensures Finds(actual, record) <==> record in Parse(actual).value
  {
    if actual != [] {
      FindsExactly(actual[FrontLen(actual).value..], record);
    }
  }

  /** Between valid images, containment is inclusion of their records, in any order. */
  lemma {:induction false} ContainsExactly(actual: seq<byte>, expected: seq<byte>)
    requires Parse(actual).Some? && Parse(expected).Some?
    ensures Contains(actual, expected) <==> forall r :: r in Parse(expected).value ==> r in Parse(actual).value
  {
    if expected != [] {
      var n := FrontLen(expected).value;
      FindsExactly(actual, expected[..n]);
      ContainsExactly(actual, expected[n..]);
      assert Parse(expected).value == [expected[..n]] + Parse(expected[n..]).value;
    }
  }

  lemma ContainsIsTransitive(a: seq<byte>, b: seq<byte>, c: seq<byte>)
    requires Parse(a).Some? && Parse(b).Some? && Parse(c).Some?
    requires Contains(a, b) && Contains(b, c)
    ensures Contains(a, c)
  {
    ContainsExactly(a, b);
    ContainsExactly(b, c);
    ContainsExactly(a, c);
  }

  /** Reordering or repeating records changes neither side of a verification. */
  lemma VerificationIgnoresOrder(readback: seq<byte>, expected: seq<byte>, other: seq<byte>)
    requires Parse(readback).Some? && Parse(expected).Some? && Parse(other).Some?
    requires forall r :: r in Parse(expected).value <==> r in Parse(other).value
    ensures Verifies(readback, expected) <==> Verifies(readback, other)
    ensures Verifies(expected, readback) <==> Verifies(other, readback)
  {
    ContainsExactly(readback, expected);
    ContainsExactly(readback, other);
    ContainsExactly(expected, readback);
    ContainsExactly(other, readback);
  }

  /** An exact readback always verifies, whether or not the image is well formed. */
  lemma ExactReadbackVerifies(image: seq<byte>)
    ensures Verifies(image, image)
  {
    if Parse(image).Some? {
      ContainsExactly(image, image);
    }
  }

  /** A readback that loses an expected record never verifies. */
  lemma LostRecordIsNoticed(readback: seq<byte>, expected: seq<byte>, record: seq<byte>)
    requires Parse(readback).Some? && Parse(expected).Some?
    requires record in Parse(expected).value && record !in Parse(readback).value
    ensures !Verifies(readback, expected)
  {
    ContainsExactly(readback, expected);
  }

  // ---- what a verification means -----------------------------------------

  ghost predicate IsImage(s: seq<byte>, records: seq<seq<byte>>)
  {
    AllWellFormed(records) && Concat(records) == s
  }

  /** A readback agrees with the expected image: between two images of records, every expected record is
      among those read back; in any other case the octets are the same. */
  ghost predicate Agrees(readback: seq<byte>, expected: seq<byte>)
  {
    if (exists a :: IsImage(readback, a)) && (exists e :: IsImage(expected, e)) then
      forall a, e :: IsImage(readback, a) && IsImage(expected, e) ==> forall r :: r in e ==> r in a
    else readback == expected
  }

  lemma VerifiesExactly(readback: seq<byte>, expected: seq<byte>)
    ensures Verifies(readback, expected) <==> Agrees(readback, expected)
  {
    hide Contains, Parse, AllWellFormed, Concat;
    ImageIsParsed(readback);
    ImageIsParsed(expected);
    if Parse(readback).Some? && Parse(expected).Some? {
      ContainsExactly(readback, expected);
    }
  }

  lemma ImageIsParsed(s: seq<byte>)
    ensures (exists records :: IsImage(s, records)) <==> Parse(s).Some?
    ensures forall records :: IsImage(s, records) <==> Parse(s) == Some(records)
  {
    ValidExactly(s);
    if Parse(s).Some? {
      ParsedIsConcat(s);
      assert IsImage(s, Parse(s).value);
    }
    forall records | IsImage(s, records) ensures Parse(s) == Some(records) {
      ParseConcat(records);
    }
  }
}
