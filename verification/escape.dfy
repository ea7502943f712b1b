/**
 * The character escaper of `src/point/escape.rs`: a table from characters to
 * replacement strings, applied in one left-to-right pass. Three presets serve the
 * line protocol: measurement names, tag keys (and field keys), and string field
 * values.
 *
 * Rust slices `value` by byte offsets and advances by `ch.len_utf8()`; on a
 * `seq<char>` every character occupies one position, so `i + 1` plays that role.
 */
module Escaper {

  /** `char_map`: the `HashMap<char, String>` an `Escaper` holds. */
  type CharMap = map<char, string>

  function Min(a: nat, b: nat): nat {
    if a < b then a else b
  }

  /** `characters.chars().zip(replacements)`: pairs by position, surplus on either side dropped. */
  function Zip(characters: string, replacements: seq<string>): (ps: seq<(char, string)>)
    ensures |ps| == Min(|characters|, |replacements|)
    ensures forall i :: 0 <= i < |ps| ==> ps[i] == (characters[i], replacements[i])
    decreases |characters|
  {
    if |characters| == 0 || |replacements| == 0 then []
    else [(characters[0], replacements[0])] + Zip(characters[1..], replacements[1..])
  }

  /** `.collect()` into a `HashMap`: later pairs overwrite earlier ones with the same key. */
  function Collect(ps: seq<(char, string)>): CharMap
    decreases |ps|
  {
    if |ps| == 0 then map[] else Collect(ps[..|ps| - 1])[ps[|ps| - 1].0 := ps[|ps| - 1].1]
  }

  /**
   * The collected map holds exactly the characters of the pairs, each with the
   * replacement of its last pair.
   */
  lemma {:induction false} CollectContents(ps: seq<(char, string)>)
    ensures Collect(ps).Keys == set i | 0 <= i < |ps| :: ps[i].0
    ensures forall i :: 0 <= i < |ps| && (forall j :: i < j < |ps| ==> ps[j].0 != ps[i].0) ==>
                          Collect(ps)[ps[i].0] == ps[i].1
    decreases |ps|
  {
    if |ps| > 0 {
      var init := ps[..|ps| - 1];
      CollectContents(init);
      assert forall i :: 0 <= i < |init| ==> init[i] == ps[i];
      assert (set i | 0 <= i < |ps| :: ps[i].0) == (set i | 0 <= i < |init| :: init[i].0) + {ps[|ps| - 1].0};
    }
  }

  lemma CollectSnoc(ps: seq<(char, string)>, p: (char, string))
    ensures Collect(ps + [p]) == Collect(ps)[p.0 := p.1]
  {
    assert (ps + [p])[..|ps|] == ps;
  }

  /** `Escaper::new`. */
  function New(characters: string, replacements: seq<string>): CharMap {
    Collect(Zip(characters, replacements))
  }

  /** What one character becomes: its replacement when it is mapped, itself otherwise. */
  function Replace(m: CharMap, c: char): string {
    if c in m then m[c] else [c]
  }

  /**
   * `Escaper::escape`, stated as its meaning: the concatenation, over the input
   * characters in order, of each character's replacement.
   */
  function Escape(m: CharMap, s: string): string
    decreases |s|
  {
    if |s| == 0 then [] else Replace(m, s[0]) + Escape(m, s[1..])
  }

  /** Escaping distributes over concatenation. */
  lemma {:induction false} EscapeAppend(m: CharMap, a: string, b: string)
    ensures Escape(m, a + b) == Escape(m, a) + Escape(m, b)
    decreases |a|
  {
    if |a| > 0 {
      assert (a + b)[0] == a[0];
      assert (a + b)[1..] == a[1..] + b;
      EscapeAppend(m, a[1..], b);
    } else {
      assert a + b == b;
    }
  }

  /** A string without mapped characters comes back unchanged. */
  lemma {:induction false} EscapeNothingMapped(m: CharMap, s: string)
    requires forall i :: 0 <= i < |s| ==> s[i] !in m
    ensures Escape(m, s) == s
    decreases |s|
  {
    if |s| > 0 {
      EscapeNothingMapped(m, s[1..]);
      assert s == [s[0]] + s[1..];
    }
  }

  /** One mapped character between two runs of unmapped ones: only it is replaced. */
  lemma EscapeOneMapped(m: CharMap, a: string, c: char, b: string)
    requires forall i :: 0 <= i < |a| ==> a[i] !in m
    requires forall i :: 0 <= i < |b| ==> b[i] !in m
    requires c in m
    ensures Escape(m, a + [c] + b) == a + m[c] + b
  {
    EscapeNothingMapped(m, a);
    EscapeNothingMapped(m, b);
    assert Escape(m, [c]) == m[c] by {
      assert [c][1..] == [];
    }
    EscapeAppend(m, a, [c]);
    EscapeAppend(m, a + [c], b);
  }

  lemma EscapeSnoc(m: CharMap, s: string, i: nat)
    requires i < |s|
    ensures Escape(m, s[..i + 1]) == Escape(m, s[..i]) + Replace(m, s[i])
  {
    assert s[..i + 1] == s[..i] + [s[i]];
    EscapeAppend(m, s[..i], [s[i]]);
  }

  /** One turn of the loop of `Escaper::escape` keeps its invariant. */
  lemma EscapeLoopStep(m: CharMap, value: string, result: string, lastEnd: nat, i: nat)
    requires lastEnd <= i < |value|
    requires result + value[lastEnd..i] == Escape(m, value[..i])
    ensures value[i] in m ==> (result + value[lastEnd..i] + m[value[i]]) + value[i + 1..i + 1] == Escape(m, value[..i + 1])
    ensures value[i] !in m ==> result + value[lastEnd..i + 1] == Escape(m, value[..i + 1])
  {
    EscapeSnoc(m, value, i);
    if value[i] in m {
      assert value[i + 1..i + 1] == [];
    } else {
      assert value[lastEnd..i + 1] == value[lastEnd..i] + [value[i]];
    }
  }

  /**
   * The loop of `Escaper::escape` as written: copy the unmapped run since
   * `last_end`, then the replacement; if nothing was replaced, return the input.
   */
  method EscapeLoop(m: CharMap, value: string) returns (r: string)
    ensures r == Escape(m, value)
  {
    var result := "";
    var lastEnd := 0;
    var i := 0;
    while i < |value|
      invariant 0 <= lastEnd <= i <= |value|
      invariant result + value[lastEnd..i] == Escape(m, value[..i])
      invariant lastEnd == 0 ==> result == []
    {
      var ch := value[i];
      EscapeLoopStep(m, value, result, lastEnd, i);
      if ch in m {
        result := result + value[lastEnd..i] + m[ch];
        lastEnd := i + 1;
      }
      i := i + 1;
    }
    assert value[..|value|] == value;
    if lastEnd == 0 {
      assert value[lastEnd..] == value;
      r := value;
    } else {
      r := result + value[lastEnd..];
    }
  }

  // ---------------------------------------------------------------------------
  // Presets
  // ---------------------------------------------------------------------------

  /** The table of `Escaper::escape_measurement`: comma, space and three control characters. */
  function MeasurementMap(): CharMap {
    map[',' := "\\,", ' ' := "\\ ", '\n' := "\\n", '\r' := "\\r", '\t' := "\\t"]
  }

  /** The table of `Escaper::escape_quoted`: `"` and `\`, each behind a backslash. */
  function QuotedMap(): CharMap {
    map['"' := "\\\"", '\\' := "\\\\"]
  }

  /** The table of `Escaper::escape_tag`: the measurement table plus `=`. */
  function TagMap(): CharMap {
    MeasurementMap()['=' := "\\="]
  }

  /** `escape_measurement` builds exactly this table through `Escaper::new`. */
  lemma MeasurementPreset()
    ensures New(", \n\r\t", ["\\,", "\\ ", "\\n", "\\r", "\\t"]) == MeasurementMap()
  {
    var a, b, c, d, e := (',', "\\,"), (' ', "\\ "), ('\n', "\\n"), ('\r', "\\r"), ('\t', "\\t");
    assert Zip(", \n\r\t", ["\\,", "\\ ", "\\n", "\\r", "\\t"]) == [a, b, c, d, e];
    CollectSnoc([], a);
    assert [] + [a] == [a];
    CollectSnoc([a], b);
    assert [a] + [b] == [a, b];
    CollectSnoc([a, b], c);
    assert [a, b] + [c] == [a, b, c];
    CollectSnoc([a, b, c], d);
    assert [a, b, c] + [d] == [a, b, c, d];
    CollectSnoc([a, b, c, d], e);
    assert [a, b, c, d] + [e] == [a, b, c, d, e];
    assert Collect([a, b, c, d, e]) == map[a.0 := a.1][b.0 := b.1][c.0 := c.1][d.0 := d.1][e.0 := e.1];
  }

  /** The pairs of `escape_tag`, collected in order. */
  lemma TagCollected()
    ensures Collect([(',', "\\,"), (' ', "\\ "), ('=', "\\="), ('\n', "\\n"), ('\r', "\\r"), ('\t', "\\t")])
         == map[',' := "\\,"][' ' := "\\ "]['=' := "\\="]['\n' := "\\n"]['\r' := "\\r"]['\t' := "\\t"]
  {
    var a, b, q, c, d, e := (',', "\\,"), (' ', "\\ "), ('=', "\\="), ('\n', "\\n"), ('\r', "\\r"), ('\t', "\\t");
    CollectSnoc([], a);
    assert [] + [a] == [a];
    CollectSnoc([a], b);
    assert [a] + [b] == [a, b];
    CollectSnoc([a, b], q);
    assert [a, b] + [q] == [a, b, q];
    CollectSnoc([a, b, q], c);
    assert [a, b, q] + [c] == [a, b, q, c];
    CollectSnoc([a, b, q, c], d);
    assert [a, b, q, c] + [d] == [a, b, q, c, d];
    CollectSnoc([a, b, q, c, d], e);
    assert [a, b, q, c, d] + [e] == [a, b, q, c, d, e];
  }

  /** `escape_tag` builds exactly this table through `Escaper::new`. */
  lemma TagPreset()
    ensures New(", =\n\r\t", ["\\,", "\\ ", "\\=", "\\n", "\\r", "\\t"]) == TagMap()
  {
    assert Zip(", =\n\r\t", ["\\,", "\\ ", "\\=", "\\n", "\\r", "\\t"])
        == [(',', "\\,"), (' ', "\\ "), ('=', "\\="), ('\n', "\\n"), ('\r', "\\r"), ('\t', "\\t")];
    TagCollected();
  }

  /** `escape_quoted` builds exactly this table through `Escaper::new`. */
  lemma QuotedPreset()
    ensures New("\"\\", ["\\\"", "\\\\"]) == QuotedMap()
  {
    var a, b := ('"', "\\\""), ('\\', "\\\\");
    assert Zip("\"\\", ["\\\"", "\\\\"]) == [a, b];
    CollectSnoc([], a);
    assert [] + [a] == [a];
    CollectSnoc([a], b);
    assert [a] + [b] == [a, b];
  }

  /** Lower-case letters are never escaped by the name escapers. */
  lemma LettersUnmapped(s: string)
    requires forall i :: 0 <= i < |s| ==> 'a' <= s[i] <= 'z'
    ensures forall i :: 0 <= i < |s| ==> s[i] !in TagMap() && s[i] !in MeasurementMap()
  {
    assert TagMap().Keys == MeasurementMap().Keys + {'='};
  }

  /** The tag names of `test_lp_builder`, escaped: space, comma and `=` get a backslash; quotes and the backslash do not. */
  lemma TestTagNames()
    ensures EscapeTag("plain") == "plain"
    ensures EscapeTag("with space") == "with\\ space"
    ensures EscapeTag("with\"doublequote") == "with\"doublequote"
    ensures EscapeTag("with'singlequote") == "with'singlequote"
    ensures EscapeTag("with,comma") == "with\\,comma"
    ensures EscapeTag("with=eq") == "with\\=eq"
    ensures EscapeTag("with\\ backslash") == "with\\\\ backslash"
  {
    LettersUnmapped("plain");
    EscapeNothingMapped(TagMap(), "plain");
    DoubleQuoteKept();
    SingleQuoteKept();
    SpaceEscaped();
    CommaEscaped();
    EqualsEscaped();
    BackslashKept();
  }

  lemma DoubleQuoteKept()
    ensures EscapeTag("with\"doublequote") == "with\"doublequote"
  {
    var m := TagMap();
    assert forall i :: 0 <= i < |"with\"doublequote"| ==> "with\"doublequote"[i] !in m;
    EscapeNothingMapped(m, "with\"doublequote");
  }

  lemma SingleQuoteKept()
    ensures EscapeTag("with'singlequote") == "with'singlequote"
  {
    var m := TagMap();
    assert forall i :: 0 <= i < |"with'singlequote"| ==> "with'singlequote"[i] !in m;
    EscapeNothingMapped(m, "with'singlequote");
  }

  /** The backslash in a name is kept as it is; only the space behind it is escaped. */
  lemma BackslashKept()
    ensures EscapeTag("with\\ backslash") == "with\\\\ backslash"
  {
    var m := TagMap();
    assert forall i :: 0 <= i < |"with\\"| ==> "with\\"[i] !in m;
    assert forall i :: 0 <= i < |"backslash"| ==> "backslash"[i] !in m;
    assert ' ' in m && m[' '] == "\\ ";
    EscapeOneMapped(m, "with\\", ' ', "backslash");
    assert "with\\" + [' '] + "backslash" == "with\\ backslash";
    assert "with\\" + "\\ " + "backslash" == "with\\\\ backslash";
  }

  /** A space in a tag name is escaped. */
  lemma SpaceEscaped()
    ensures EscapeTag("with space") == "with\\ space"
  {
    var m := TagMap();
    assert forall i :: 0 <= i < |"with"| ==> "with"[i] !in m;
    assert forall i :: 0 <= i < |"space"| ==> "space"[i] !in m;
    assert ' ' in m && m[' '] == "\\ ";
    EscapeOneMapped(m, "with", ' ', "space");
    assert "with" + [' '] + "space" == "with space";
    assert "with" + "\\ " + "space" == "with\\ space";
  }

  /** A comma in a tag name is escaped. */
  lemma CommaEscaped()
    ensures EscapeTag("with,comma") == "with\\,comma"
  {
    var m := TagMap();
    assert forall i :: 0 <= i < |"with"| ==> "with"[i] !in m;
    assert forall i :: 0 <= i < |"comma"| ==> "comma"[i] !in m;
    assert ',' in m && m[','] == "\\,";
    EscapeOneMapped(m, "with", ',', "comma");
    assert "with" + [','] + "comma" == "with,comma";
    assert "with" + "\\," + "comma" == "with\\,comma";
  }

  /** An `=` in a tag name is escaped. */
  lemma EqualsEscaped()
    ensures EscapeTag("with=eq") == "with\\=eq"
  {
    var m := TagMap();
    assert forall i :: 0 <= i < |"with"| ==> "with"[i] !in m;
    assert forall i :: 0 <= i < |"eq"| ==> "eq"[i] !in m;
    assert '=' in m && m['='] == "\\=";
    EscapeOneMapped(m, "with", '=', "eq");
    assert "with" + ['='] + "eq" == "with=eq";
    assert "with" + "\\=" + "eq" == "with\\=eq";
  }

  function EscapeMeasurement(s: string): string {
    Escape(MeasurementMap(), s)
  }

  function EscapeTag(s: string): string {
    Escape(TagMap(), s)
  }

  function EscapeQuoted(s: string): string {
    Escape(QuotedMap(), s)
  }

  /** What the measurement escaper does to one character: `=` and `\` pass through. */
  function MeasurementReplace(c: char): (r: string)
    ensures r == Replace(MeasurementMap(), c)
    ensures c !in ",\n\r\t " ==> r == [c]
  {
    if c == '\n' then "\\n" else if c == '\r' then "\\r" else if c == '\t' then "\\t"
    else if c == ',' || c == ' ' then ['\\', c]
    else [c]
  }

  /** The tag escaper handles `=` too, and agrees with the measurement escaper elsewhere. */
  function TagReplace(c: char): (r: string)
    ensures r == Replace(TagMap(), c)
    ensures c != '=' ==> r == Replace(MeasurementMap(), c)
  {
    if c == '=' then "\\=" else MeasurementReplace(c)
  }

  /** The measurement escaper is not injective: a newline and a literal backslash-n collide. */
  lemma MeasurementNotInjective()
    ensures EscapeMeasurement("\n") == EscapeMeasurement("\\n")
    ensures "\n" != "\\n"
  {
    assert EscapeMeasurement("\n") == "\\n";
    assert "\\n"[1..] == "n";
    assert Escape(MeasurementMap(), "n") == "n";
    assert EscapeMeasurement("\\n") == "\\" + Escape(MeasurementMap(), "n");
  }

  /** The same collision happens under the tag escaper. */
  lemma TagNotInjective()
    ensures EscapeTag("\t") == EscapeTag("\\t")
  {
    assert EscapeTag("\t") == "\\t";
    assert "\\t"[1..] == "t";
    assert Escape(TagMap(), "t") == "t";
    assert EscapeTag("\\t") == "\\" + Escape(TagMap(), "t");
  }

  // ---------------------------------------------------------------------------
  // Quoted strings can be unescaped
  // ---------------------------------------------------------------------------

  /** Drops the backslash in front of every escaped character. */
  function UnescapeQuoted(s: string): string
    decreases |s|
  {
    if |s| == 0 then []
    else if s[0] == '\\' && |s| >= 2 then [s[1]] + UnescapeQuoted(s[2..])
    else [s[0]] + UnescapeQuoted(s[1..])
  }

  /** Unescaping undoes `escape_quoted`, so the quoted escaper loses no information. */
  lemma {:induction false} QuotedRoundTrip(s: string)
    ensures UnescapeQuoted(EscapeQuoted(s)) == s
    decreases |s|
  {
    if |s| > 0 {
      QuotedRoundTrip(s[1..]);
      var tail := EscapeQuoted(s[1..]);
      assert EscapeQuoted(s) == Replace(QuotedMap(), s[0]) + tail;
      UnescapeStep(s[0], tail);
      assert s == [s[0]] + s[1..];
    }
  }

  /** Unescaping reads one escaped character back and goes on after it. */
  lemma UnescapeStep(c: char, tail: string)
    ensures UnescapeQuoted(Replace(QuotedMap(), c) + tail) == [c] + UnescapeQuoted(tail)
  {
    var e := Replace(QuotedMap(), c) + tail;
    if c == '"' || c == '\\' {
      assert e == ['\\', c] + tail;
      assert e[2..] == tail;
    } else {
      assert e == [c] + tail;
      assert e[1..] == tail;
    }
  }

  lemma QuotedInjective(a: string, b: string)
    requires EscapeQuoted(a) == EscapeQuoted(b)
    ensures a == b
  {
    QuotedRoundTrip(a);
    QuotedRoundTrip(b);
  }

  /**
   * An already-escaped quote inside plain text is escaped again, backslash and quote
   * each getting their own backslash: `foo \" bar` becomes `foo \\\" bar`.
   */
  lemma QuotedReescape(pre: string, post: string)
    requires forall i :: 0 <= i < |pre| ==> pre[i] != '"' && pre[i] != '\\'
    requires forall i :: 0 <= i < |post| ==> post[i] != '"' && post[i] != '\\'
    ensures EscapeQuoted(pre + ['\\', '"'] + post) == pre + ['\\', '\\', '\\', '"'] + post
  {
    var m := QuotedMap();
    EscapeNothingMapped(m, pre);
    EscapeNothingMapped(m, post);
    var mid: string := ['\\', '"'];
    assert Escape(m, mid) == ['\\', '\\', '\\', '"'] by {
      assert mid[1..] == ['"'];
      assert Escape(m, ['"']) == ['\\', '"'];
    }
    EscapeAppend(m, pre, mid);
    EscapeAppend(m, pre + mid, post);
  }

  /** The last string-escape case tested in src/point/mod.rs. */
  lemma QuotedExample()
    ensures EscapeQuoted("foo \\\" bar") == "foo \\\\\\\" bar"
  {
    QuotedReescape("foo ", " bar");
    assert "foo \\\" bar" == "foo " + ['\\', '"'] + " bar";
    assert "foo \\\\\\\" bar" == "foo " + ['\\', '\\', '\\', '"'] + " bar";
  }
}
