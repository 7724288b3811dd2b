/** The derived accessor `Patient.get_conditions_list`: the stored
    `conditions_treated` text split on every comma, each piece stripped of
    surrounding whitespace; empty text gives the empty list. */
module Conditions {

  /** The code points for which Python's `str.isspace` holds: what a bare
      `strip()` removes. */
  predicate IsSpace(c: char) {
    || '\t' <= c <= '\r'
    || '\U{1C}' <= c <= ' '
    || c == '\U{85}' || c == '\U{A0}' || c == '\U{1680}'
    || '\U{2000}' <= c <= '\U{200A}'
    || c == '\U{2028}' || c == '\U{2029}' || c == '\U{202F}' || c == '\U{205F}' || c == '\U{3000}'
  }

  predicate AllSpace(s: string) {
    forall k :: 0 <= k < |s| ==> IsSpace(s[k])
  }

  /** Neither the first nor the last character is whitespace. */
  predicate Trimmed(s: string) {
    s == [] || (!IsSpace(s[0]) && !IsSpace(s[|s| - 1]))
  }

  /** The number of occurrences of `c` in `s`. */
  function Count(s: string, c: char): (n: nat)
    ensures n <= |s|
    ensures n == 0 <==> c !in s
  {
    if s == [] then 0 else (if s[0] == c then 1 else 0) + Count(s[1..], c)
  }

  /** `s.split(sep)`: the maximal separator-free pieces between separators,
      empty pieces included; never the empty list. */
  function Split(s: string, sep: char): (r: seq<string>)
    ensures |r| == Count(s, sep) + 1
    ensures forall i :: 0 <= i < |r| ==> sep !in r[i]
  {
    if s == [] then [""]
    else
      var rest := Split(s[1..], sep);
      if s[0] == sep then [""] + rest
      else [[s[0]] + rest[0]] + rest[1..]
  }

  /** `sep.join(pieces)`. */
  function Join(pieces: seq<string>, sep: char): string {
    if |pieces| == 0 then ""
    else if |pieces| == 1 then pieces[0]
    else pieces[0] + [sep] + Join(pieces[1..], sep)
  }

  /** Joining the pieces with the separator gives back the split text. */
  lemma {:induction false} JoinSplit(s: string, sep: char)
    ensures Join(Split(s, sep), sep) == s
  {
    if s != [] {
      JoinSplit(s[1..], sep);
      var rest := Split(s[1..], sep);
      if s[0] == sep {
        JoinCons("", rest, sep);
      } else {
        JoinExtendHead(s[0], rest, sep);
      }
      assert [s[0]] + s[1..] == s;
    }
  }

  /** Joining a list with one more piece in front puts that piece and a
      separator in front. */
  lemma JoinCons(a: string, rest: seq<string>, sep: char)
    requires |rest| > 0
    ensures Join([a] + rest, sep) == a + [sep] + Join(rest, sep)
  {
    assert ([a] + rest)[1..] == rest;
  }

  /** Extending the first piece by a character in front extends the join by
      that character. */
  lemma JoinExtendHead(c: char, rest: seq<string>, sep: char)
    requires |rest| > 0
    ensures Join([[c] + rest[0]] + rest[1..], sep) == [c] + Join(rest, sep)
  {
    var r := [[c] + rest[0]] + rest[1..];
    assert r[1..] == rest[1..];
    if |rest| > 1 {
      assert Join(rest, sep) == rest[0] + [sep] + Join(rest[1..], sep);
    }
  }

  /** A separator-free text followed by a separator splits into that text
      and then the pieces of whatever follows. */
  lemma {:induction false} SplitPiece(a: string, b: string, sep: char)
    requires sep !in a
    ensures Split(a + [sep] + b, sep) == [a] + Split(b, sep)
  {
    var s := a + [sep] + b;
    if a == [] {
      assert s == [sep] + b && s[1..] == b;
    } else {
      assert s[0] == a[0] && s[1..] == a[1..] + [sep] + b;
      SplitPiece(a[1..], b, sep);
      assert [a[0]] + a[1..] == a;
    }
  }

  /** A separator-free text is a single piece. */
  lemma {:induction false} SplitNoSep(a: string, sep: char)
    requires sep !in a
    ensures Split(a, sep) == [a]
  {
    if a != [] {
      SplitNoSep(a[1..], sep);
      assert [a[0]] + a[1..] == a;
    }
  }

  /** Splitting undoes joining, for any non-empty list of separator-free
      pieces. */
  lemma {:induction false} SplitJoin(pieces: seq<string>, sep: char)
    requires |pieces| > 0
    requires forall i :: 0 <= i < |pieces| ==> sep !in pieces[i]
    ensures Split(Join(pieces, sep), sep) == pieces
  {
    if |pieces| == 1 {
      SplitNoSep(pieces[0], sep);
    } else {
      SplitJoin(pieces[1..], sep);
      SplitPiece(pieces[0], Join(pieces[1..], sep), sep);
      assert [pieces[0]] + pieces[1..] == pieces;
    }
  }

  /** The first index at or after `i` that does not hold whitespace (or the
      length of `s`): where `lstrip` starts the result. */
  function SkipSpace(s: string, i: nat): (j: nat)
    requires i <= |s|
    ensures i <= j <= |s|
    ensures forall k :: i <= k < j ==> IsSpace(s[k])
    ensures j < |s| ==> !IsSpace(s[j])
    decreases |s| - i
  {
    if i < |s| && IsSpace(s[i]) then SkipSpace(s, i + 1) else i
  }

  /** The end of `s[lo..hi]` once its trailing whitespace is dropped: where
      `rstrip` ends the result. */
  function TrimEnd(s: string, lo: nat, hi: nat): (j: nat)
    requires lo <= hi <= |s|
    ensures lo <= j <= hi
    ensures forall k :: j <= k < hi ==> IsSpace(s[k])
    ensures j > lo ==> !IsSpace(s[j - 1])
  {
    if hi > lo && IsSpace(s[hi - 1]) then TrimEnd(s, lo, hi - 1) else hi
  }

  /** `s.strip()`: the result is a contiguous part of `s` with no whitespace
      at either end, and everything cut off on either side is whitespace. */
  function Strip(s: string): (r: string)
    ensures Trimmed(r)
    ensures exists i, j :: 0 <= i <= j <= |s| && r == s[i..j] && AllSpace(s[..i]) && AllSpace(s[j..])
  {
    var i := SkipSpace(s, 0);
    var j := TrimEnd(s, i, |s|);
    assert AllSpace(s[..i]) && AllSpace(s[j..]);
    s[i..j]
  }

  /** Stripping never brings in a character that was not there. */
  lemma StripWithin(s: string, c: char)
    requires c !in s
    ensures c !in Strip(s)
  {
    var i, j :| 0 <= i <= j <= |s| && Strip(s) == s[i..j];
  }

  /** A text with no surrounding whitespace is left as it is. */
  lemma StripTrimmed(s: string)
    requires Trimmed(s)
    ensures Strip(s) == s
  {
  }

  /** Each piece stripped, in order. */
  function StripAll(pieces: seq<string>): (r: seq<string>)
    ensures |r| == |pieces|
    ensures forall i :: 0 <= i < |r| ==> r[i] == Strip(pieces[i])
  {
    seq(|pieces|, i requires 0 <= i < |pieces| => Strip(pieces[i]))
  }

  /** `Patient.get_conditions_list`. Empty text gives no entries; otherwise
      there is one entry per comma-separated segment (one more than there are
      commas), each the stripped segment, so empty segments are kept and
      repeated ones are not merged. No entry holds a comma or has surrounding
      whitespace. */
  function ConditionsList(text: string): (r: seq<string>)
    ensures r == [] <==> text == []
    ensures text != [] ==> |r| == Count(text, ',') + 1
    ensures text != [] ==> forall i :: 0 <= i < |r| ==> r[i] == Strip(Split(text, ',')[i])
    ensures forall i :: 0 <= i < |r| ==> ',' !in r[i] && Trimmed(r[i])
  {
    if text == [] then []
    else
      var pieces := Split(text, ',');
      assert forall i :: 0 <= i < |pieces| ==> ',' !in Strip(pieces[i]) by {
        forall i | 0 <= i < |pieces| ensures ',' !in Strip(pieces[i]) {
          StripWithin(pieces[i], ',');
        }
      }
      StripAll(pieces)
  }

  /** When no segment has surrounding whitespace, joining the entries with
      commas gives back the stored text (the empty text included). */
  lemma ConditionsRoundTrip(text: string)
    requires forall i :: 0 <= i < |Split(text, ',')| ==> Trimmed(Split(text, ',')[i])
    ensures Join(ConditionsList(text), ',') == text
  {
    if text != [] {
      var pieces := Split(text, ',');
      forall i | 0 <= i < |pieces| ensures Strip(pieces[i]) == pieces[i] {
        StripTrimmed(pieces[i]);
      }
      var entries := ConditionsList(text);
      assert |entries| == |pieces|;
      assert forall i :: 0 <= i < |entries| ==> entries[i] == pieces[i];
      assert entries == pieces;
      JoinSplit(text, ',');
    }
  }

  /** Reading back the comma-join of comma-free pieces gives each piece
      stripped, in order, unless the join is the empty text. */
  lemma ConditionsOfJoin(pieces: seq<string>)
    requires pieces != [] && pieces != [""]
    requires forall i :: 0 <= i < |pieces| ==> ',' !in pieces[i]
    ensures ConditionsList(Join(pieces, ',')) == StripAll(pieces)
  {
    SplitJoin(pieces, ',');
    var r := ConditionsList(Join(pieces, ','));
    assert r == StripAll(pieces);
  }

  /** Conversely, a list of comma-free, trimmed entries that is not a single
      empty entry is what its comma-join reads back as. */
  lemma ConditionsFromJoin(entries: seq<string>)
    requires entries != [] && entries != [""]
    requires forall i :: 0 <= i < |entries| ==> ',' !in entries[i] && Trimmed(entries[i])
    ensures ConditionsList(Join(entries, ',')) == entries
  {
    ConditionsOfJoin(entries);
    forall i | 0 <= i < |entries| ensures StripAll(entries)[i] == entries[i] {
      StripTrimmed(entries[i]);
    }
    assert StripAll(entries) == entries;
  }

  /** Stripping a text that is leading whitespace followed by a non-empty
      trimmed text leaves that text. */
  lemma StripLeadingSpace(w: string, t: string)
    requires AllSpace(w) && t != [] && Trimmed(t)
    ensures Strip(w + t) == t
  {
    var s := w + t;
    var i := SkipSpace(s, 0);
    assert s[|w|] == t[0];
    assert i == |w|;
    assert s[|s| - 1] == t[|t| - 1];
    assert TrimEnd(s, i, |s|) == |s|;
    assert s[|w|..] == t;
  }

  /** The second help-text segment, stripped. */
  lemma StripHypertension()
    ensures Strip(" Hypertension") == "Hypertension"
  {
    assert " Hypertension" == " " + "Hypertension";
    StripLeadingSpace(" ", "Hypertension");
  }

  /** The third help-text segment, stripped. */
  lemma StripObesity()
    ensures Strip("  Obesity") == "Obesity"
  {
    assert "  Obesity" == "  " + "Obesity";
    StripLeadingSpace("  ", "Obesity");
  }

  /** The help-text segments stripped, as a list. */
  lemma StripHelpTextSegments()
    ensures StripAll(["Diabetes", " Hypertension", "  Obesity"]) == ["Diabetes", "Hypertension", "Obesity"]
  {
    StripTrimmed("Diabetes");
    StripHypertension();
    StripObesity();
  }

  /** The example list of the patient form's help text, with a doubled
      space before the last entry. */
  lemma ExampleHelpText(text: string)
    requires text == "Diabetes, Hypertension,  Obesity"
    ensures ConditionsList(text) == ["Diabetes", "Hypertension", "Obesity"]
  {
    var pieces := ["Diabetes", " Hypertension", "  Obesity"];
    assert Join(pieces, ',') == text;
    ConditionsOfJoin(pieces);
    StripHelpTextSegments();
  }

  /** An empty segment in the middle is kept as an empty entry. */
  lemma ExampleEmptyMiddle(text: string)
    requires text == "a,,b"
    ensures ConditionsList(text) == ["a", "", "b"]
  {
    SplitEmptyMiddle(text);
    StripTrimmed("a");
    StripTrimmed("");
    StripTrimmed("b");
  }

  /** The segments of the empty-middle example. */
  lemma SplitEmptyMiddle(text: string)
    requires text == "a,,b"
    ensures Split(text, ',') == ["a", "", "b"]
  {
    assert text == "a" + [','] + ("" + [','] + "b");
    SplitPiece("a", "" + [','] + "b", ',');
    SplitPiece("", "b", ',');
    SplitNoSep("b", ',');
  }

  /** A trailing comma gives a trailing empty entry. */
  lemma ExampleEmptyTrailing(text: string)
    requires text == "a,"
    ensures ConditionsList(text) == ["a", ""]
  {
    assert text == "a" + [','] + "";
    SplitPiece("a", "", ',');
    StripTrimmed("a");
    StripTrimmed("");
  }
}
