/** The cursor of a page: the last id in UTF-8, as base64url, and its strict reader (src/lib/fleet-cursor.ts). */
module FleetCursor {
  import opened Base64Url
  import opened Options
  import opened Utf8

  type Id = seq<Scalar>

  const LONGEST_CURSOR := 2_732
  const LONGEST_ID := 512

  function WriteCursor(id: Id): string { Encode(EncodeUtf8(id)) }

  /**
   None stands for the errors that the reader throws.  Bytes that are not UTF-8 decode to replacement
   characters, whose text is never the one that was read; so they too are an error.
   */
  function ReadCursor(t: string): Option<Id> {
    if !(1 <= |t| <= LONGEST_CURSOR) || exists c :: c in t && !InAlphabet(c) then None
    else
      var id := DecodeUtf8(Decode(t));
      if id.None? || WriteCursor(id.value) != t then None
      else if !(1 <= Units(id.value) <= LONGEST_ID) then None
      else id
  }

  predicate Readable(id: Id) { 1 <= Units(id) <= LONGEST_ID }

  /** The reader returns exactly the id that was written, for exactly the ids within its length limit. */
  lemma CursorRoundTrip(id: Id)
    ensures ReadCursor(WriteCursor(id)) == if 1 <= Units(id) <= 512 then Some(id) else None
  {
    hide Encode, Decode, EncodeUtf8, DecodeUtf8, Units, InAlphabet;
    var b := EncodeUtf8(id);
    DecodeEncodeUtf8(id);
    DecodeEncode(b);
    EncodeShape(b);
    UnitsBound(id);
  }

  /** Nothing but the canonical text of an id is accepted for it. */
  lemma CursorIsCanonical(t: string)
    requires ReadCursor(t).Some?
    ensures t == WriteCursor(ReadCursor(t).value) && 1 <= Units(ReadCursor(t).value) <= 512
  {}
}
