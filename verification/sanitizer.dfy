/** The per-record clean-up of the CSV converter (`ILLEGAL_CHARACTERS_RE` and its use in the
    row loop of ppe_analytics_upload/csv2xlsx.py). Detection uses an anchored match, so only
    a field whose FIRST character is illegal triggers the clean-up; the clean-up then
    removes every illegal character from every field of the record. */
module Sanitizer {

  /** The characters the pattern matches: 0x00-0x08, 0x0B-0x0C and 0x0E-0x1F (tab, line
      feed and carriage return are allowed). */
  predicate IsIllegal(c: char) {
    (0 <= c as int <= 8) || (11 <= c as int <= 12) || (14 <= c as int <= 31)
  }

  predicate Clean(s: string) {
    forall i :: 0 <= i < |s| ==> !IsIllegal(s[i])
  }

  /** The pattern's `match` on one field: it succeeds only at the field's first character. */
  predicate MatchesAtStart(field: string) {
    |field| > 0 && IsIllegal(field[0])
  }

  /** `any(illegal_chars)`: some field of the record starts with an illegal character. */
  predicate Triggers(rec: seq<string>) {
    exists i :: 0 <= i < |rec| && MatchesAtStart(rec[i])
  }

  /** The pattern's `sub("", field)`: every illegal character removed. */
  function Strip(s: string): (r: string)
    ensures Clean(r)
    ensures |r| <= |s|
  {
    if |s| == 0 then ""
    else if IsIllegal(s[0]) then Strip(s[1..])
    else [s[0]] + Strip(s[1..])
  }

  /** Removal works piecewise: it keeps the remaining characters in their order. */
  lemma {:induction false} StripAppend(a: string, b: string)
    ensures Strip(a + b) == Strip(a) + Strip(b)
  {
    if |a| == 0 {
      assert a + b == b;
    } else {
      assert (a + b)[0] == a[0];
      assert (a + b)[1..] == a[1..] + b;
      StripAppend(a[1..], b);
    }
  }

  /** Every legal character survives removal as often as it occurred; every illegal one
      disappears. */
  lemma {:induction false} StripCounts(s: string, c: char)
    ensures multiset(Strip(s))[c] == if IsIllegal(c) then 0 else multiset(s)[c]
  {
    if |s| > 0 {
      StripCounts(s[1..], c);
      assert s == [s[0]] + s[1..];
    }
  }

  /** Removal changes a field exactly when the field holds an illegal character. */
  lemma {:induction false} StripFixesClean(s: string)
    ensures Strip(s) == s <==> Clean(s)
  {
    if |s| > 0 && Clean(s) {
      StripFixesClean(s[1..]);
    }
  }

  /** Removing twice is removing once. */
  lemma StripIdempotent(s: string)
    ensures Strip(Strip(s)) == Strip(s)
  {
    StripFixesClean(Strip(s));
  }

  /** The record written by the loop: cleaned when the anchored check fires, otherwise the
      record as read, illegal characters after the first position included. */
  function Sanitize(rec: seq<string>): (r: seq<string>)
    ensures |r| == |rec|
    ensures !Triggers(r)
    ensures !Triggers(rec) ==> r == rec
    ensures Triggers(rec) ==> forall i :: 0 <= i < |rec| ==> Clean(r[i]) && r[i] == Strip(rec[i])
  {
    if Triggers(rec) then seq(|rec|, i requires 0 <= i < |rec| => Strip(rec[i])) else rec
  }

  /** Sanitizing a sanitized record changes nothing. */
  lemma SanitizeIdempotent(rec: seq<string>)
    ensures Sanitize(Sanitize(rec)) == Sanitize(rec)
  {
  }

  /** Every field of a record is kept when no field starts with an illegal character, even
      if a later position holds one; a record whose first field starts with one is cleaned
      in every field. */
  lemma AnchoredDetection()
    ensures Sanitize(["a\U{1}b", "c"]) == ["a\U{1}b", "c"]
    ensures Sanitize(["\U{1}a", "b\U{2}"]) == ["a", "b"]
  {
    var kept := ["a\U{1}b", "c"];
    assert !MatchesAtStart(kept[0]) && !MatchesAtStart(kept[1]);
    var cleaned := ["\U{1}a", "b\U{2}"];
    assert MatchesAtStart(cleaned[0]);
    assert Strip(cleaned[0]) == "a" by {
      assert cleaned[0][1..] == "a";
      assert "a"[1..] == "";
    }
    assert Strip(cleaned[1]) == "b" by {
      assert cleaned[1][1..] == "\U{2}";
      assert "\U{2}"[1..] == "";
    }
  }
}
