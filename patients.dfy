/** The Patient record and its serialised form.

    The contract stores each record as a `json.Marshal` document and reads it
    back with `json.Unmarshal`. This module gives both a concrete stand-in: a
    document is the sequence of (attribute name, attribute value) strings in
    the record's declaration order, each string written as one marker byte 1
    plus three bytes per character and closed by a 0 byte. Only what the
    contract relies on is claimed about it: decoding an encoding gives back the
    record, and bytes that are not a document (the empty value among them) are
    rejected rather than read as a record. */
module Patients {
  import opened Basics

  /** One patient entry; the ledger key of a record is its `nin`. */
  datatype Patient = Patient(
    nin: string,
    firstName: string,
    lastName: string,
    dateOfBirth: string,
    sex: string,
    motherNin: string,
    fatherNin: string,
    familyMedicalHistory: string,
    allergy: string,
    chronicIllnesses: string,
    amendedFrom: string)

  /** The attribute names of the stored document, in declaration order. */
  const TAGS: seq<string> := [
    "nin", "firstName", "lastName", "dateOfBirth", "sex", "motherNin",
    "fatherNin", "familyMedicalHistory", "allergy", "chronicIllnesses", "amendedFrom"]

  function Values(p: Patient): (vs: seq<string>)
    ensures |vs| == |TAGS|
  {
    [p.nin, p.firstName, p.lastName, p.dateOfBirth, p.sex, p.motherNin,
     p.fatherNin, p.familyMedicalHistory, p.allergy, p.chronicIllnesses, p.amendedFrom]
  }

  function FromValues(vs: seq<string>): Patient
    requires |vs| == |TAGS|
  {
    Patient(vs[0], vs[1], vs[2], vs[3], vs[4], vs[5], vs[6], vs[7], vs[8], vs[9], vs[10])
  }

  // ---------------------------------------------------------------------
  // Characters

  /** The code points a Dafny `char` can hold (Unicode scalar values). */
  predicate IsScalar(n: int) {
    0 <= n < 0xD800 || 0xE000 <= n < 0x11_0000
  }

  function CharBytes(c: char): (r: Bytes)
    ensures |r| == 3
  {
    var n := c as int;
    [(n / 0x1_0000) as byte, (n / 0x100 % 0x100) as byte, (n % 0x100) as byte]
  }

  function CharOf(hi: byte, mid: byte, lo: byte): Option<char> {
    var n := hi as int * 0x1_0000 + mid as int * 0x100 + lo as int;
    if IsScalar(n) then Some(n as char) else None
  }

  lemma CharRoundTrip(c: char)
    ensures var r := CharBytes(c); CharOf(r[0], r[1], r[2]) == Some(c)
  {
    var n := c as int;
    assert n == (n / 0x1_0000) * 0x1_0000 + (n / 0x100 % 0x100) * 0x100 + n % 0x100;
  }

  // ---------------------------------------------------------------------
  // Strings

  function EncodeText(s: string): (r: Bytes)
    ensures |r| == 4 * |s| + 1
  {
    if s == [] then [0] else [1] + CharBytes(s[0]) + EncodeText(s[1..])
  }

  /** Reads one string off the front of `b`, returning it and what follows. */
  function DecodeText(b: Bytes): (r: Option<(string, Bytes)>)
    ensures r.Some? ==> |r.value.1| < |b|
    decreases |b|
  {
    if |b| == 0 then None
    else if b[0] == 0 then Some(([], b[1..]))
    else if b[0] == 1 && |b| >= 4 then
      match CharOf(b[1], b[2], b[3])
      case None => None
      case Some(c) =>
        match DecodeText(b[4..])
        case None => None
        case Some((s, rest)) => Some(([c] + s, rest))
    else None
  }

  lemma {:induction false} TextRoundTrip(s: string, rest: Bytes)
    ensures DecodeText(EncodeText(s) + rest) == Some((s, rest))
    decreases |s|
  {
    var b := EncodeText(s) + rest;
    if s != [] {
      var cb := CharBytes(s[0]);
      assert b == [1] + cb + (EncodeText(s[1..]) + rest);
      assert b[1..4] == cb;
      assert b[4..] == EncodeText(s[1..]) + rest;
      CharRoundTrip(s[0]);
      TextRoundTrip(s[1..], rest);
      assert [s[0]] + s[1..] == s;
    } else {
      assert b[1..] == rest;
    }
  }

  function EncodeTexts(fs: seq<string>): Bytes {
    if fs == [] then [] else EncodeText(fs[0]) + EncodeTexts(fs[1..])
  }

  /** Splits all of `b` into strings; fails unless `b` is exactly a run of them. */
  function DecodeTexts(b: Bytes): Option<seq<string>>
    decreases |b|
  {
    if b == [] then Some([])
    else
      match DecodeText(b)
      case None => None
      case Some((s, rest)) =>
        match DecodeTexts(rest)
        case None => None
        case Some(fs) => Some([s] + fs)
  }

  lemma {:induction false} TextsRoundTrip(fs: seq<string>)
    ensures DecodeTexts(EncodeTexts(fs)) == Some(fs)
  {
    if fs != [] {
      TextRoundTrip(fs[0], EncodeTexts(fs[1..]));
      TextsRoundTrip(fs[1..]);
      assert [fs[0]] + fs[1..] == fs;
    }
  }

  // ---------------------------------------------------------------------
  // Attribute names

  /** Interleaves attribute names with their values. */
  function Tagged(tags: seq<string>, vs: seq<string>): seq<string>
    requires |tags| == |vs|
  {
    if tags == [] then [] else [tags[0], vs[0]] + Tagged(tags[1..], vs[1..])
  }

  /** Checks that `fs` names exactly the attributes `tags`, in order, and
      returns their values. */
  function Untag(tags: seq<string>, fs: seq<string>): (r: Option<seq<string>>)
    ensures r.Some? ==> |r.value| == |tags|
  {
    if tags == [] then (if fs == [] then Some([]) else None)
    else if |fs| >= 2 && fs[0] == tags[0] then
      match Untag(tags[1..], fs[2..])
      case None => None
      case Some(vs) => Some([fs[1]] + vs)
    else None
  }

  lemma {:induction false} UntagTagged(tags: seq<string>, vs: seq<string>)
    requires |tags| == |vs|
    ensures Untag(tags, Tagged(tags, vs)) == Some(vs)
  {
    if tags != [] {
      var fs := Tagged(tags, vs);
      assert fs[2..] == Tagged(tags[1..], vs[1..]);
      UntagTagged(tags[1..], vs[1..]);
      assert [vs[0]] + vs[1..] == vs;
    }
  }

  // ---------------------------------------------------------------------
  // Records

  /** Stand-in for `json.Marshal` of a Patient. A document is never the empty
      value, so a stored record is always told apart from an empty entry. */
  function Encode(p: Patient): (r: Bytes)
    ensures r != []
  {
    EncodeTexts(Tagged(TAGS, Values(p)))
  }

  /** Stand-in for `json.Unmarshal` into a Patient; `None` is its error. An
      empty value is not a document, so it never decodes into a record. */
  function Decode(b: Bytes): (r: Option<Patient>)
    ensures b == [] ==> r == None
  {
    match DecodeTexts(b)
    case None => None
    case Some(fs) =>
      match Untag(TAGS, fs)
      case None => None
      case Some(vs) => Some(FromValues(vs))
  }

  /** Decoding gives back every field of the encoded record. */
  lemma RoundTrip(p: Patient)
    ensures Decode(Encode(p)) == Some(p)
  {
    TextsRoundTrip(Tagged(TAGS, Values(p)));
    UntagTagged(TAGS, Values(p));
  }
}
