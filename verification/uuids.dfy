/** Parsing of the UUID strings the endpoints receive into the canonical
    form the tables key their rows by. */
module Uuids {
  import opened Wrappers
  import Strings

  predicate IsHexDigit(c: char) {
    '0' <= c <= '9' || 'a' <= c <= 'f' || 'A' <= c <= 'F'
  }

  /** 32 lower-case hex digits: the form ids are stored in. */
  predicate IsCanonical(id: string) {
    |id| == 32 && forall i :: 0 <= i < 32 ==> ('0' <= id[i] <= '9' || 'a' <= id[i] <= 'f')
  }

  /** `uuid.UUID(text)`: "urn:" and "uuid:" removed, surrounding braces
      stripped, hyphens removed; valid when 32 hex digits remain. The result is
      their lower-case form. */
  function ParseUuid(text: string): (r: Option<string>)
    ensures r.Some? ==> IsCanonical(r.value)
  {
    var h := Strings.RemoveAll(Strings.StripChars(Strings.RemoveAll(Strings.RemoveAll(text, "urn:"), "uuid:"), {'{', '}'}), "-");
    if |h| == 32 && forall i :: 0 <= i < 32 ==> IsHexDigit(h[i]) then
      var l := Strings.Lower(h);
      assert forall i :: 0 <= i < 32 ==> l[i] == Strings.LowerChar(h[i]);
      Some(l)
    else None
  }

  /** A canonical id parses to itself. */
  lemma ParseCanonical(id: string)
    requires IsCanonical(id)
    ensures ParseUuid(id) == Some(id)
  {
    NoSeparator(id, "urn:", 3);
    assert Strings.RemoveAll(id, "urn:") == id;
    NoSeparator(id, "uuid:", 4);
    assert Strings.RemoveAll(id, "uuid:") == id;
    assert Strings.StripChars(id, {'{', '}'}) == id;
    NoSeparator(id, "-", 0);
    assert Strings.RemoveAll(id, "-") == id;
    var l := Strings.Lower(id);
    assert forall i :: 0 <= i < 32 ==> IsHexDigit(id[i]);
    assert forall i :: 0 <= i < 32 ==> l[i] == id[i];
    assert l == id;
  }

  /** A pattern holding a character that is not a hex digit never occurs in a canonical id. */
  lemma NoSeparator(id: string, pat: string, k: nat)
    requires IsCanonical(id) && k < |pat| && !('0' <= pat[k] <= '9' || 'a' <= pat[k] <= 'f')
    ensures forall j :: !Strings.OccursAt(id, pat, j)
  {
    forall j ensures !Strings.OccursAt(id, pat, j) {
      if 0 <= j && j + |pat| <= |id| {
        assert id[j..j + |pat|][k] == id[j + k];
      }
    }
  }
}
