/**
 Escaping of iCalendar text values and its three copies in the API
 (src/routes/calendar-feed.ts, src/routes/projects.ts, src/routes/shift-planning.ts), against
 the reading of TEXT values in section 3.3.11 of RFC 5545.
 */
module IcsText {

  const CR := '\r'
  const LF := '\n'

  // ---------------------------------------------------------------------------
  // The chained replacements

  /** `value.replace(/c/g, with)` */
  function Replace(s: string, c: char, with: string): string {
    if s == [] then []
    else (if s[0] == c then with else [s[0]]) + Replace(s[1..], c, with)
  }

  predicate StartsCrLf(s: string) { |s| >= 2 && s[0] == CR && s[1] == LF }

  /** `value.replace(/\r?\n/g, with)` */
  function ReplaceNewline(s: string, with: string): string {
    if s == [] then []
    else if StartsCrLf(s) then with + ReplaceNewline(s[2..], with)
    else (if s[0] == LF then with else [s[0]]) + ReplaceNewline(s[1..], with)
  }

  /** The calendar feed: backslash, line break, comma, semicolon. */
  function EscapeFeed(s: string): string {
    Replace(Replace(ReplaceNewline(Replace(s, '\\', "\\\\"), "\\n"), ',', "\\,"), ';', "\\;")
  }

  /** The project calendar: line feeds only, otherwise the same order. */
  function EscapeProject(s: string): string {
    Replace(Replace(Replace(Replace(s, '\\', "\\\\"), LF, "\\n"), ',', "\\,"), ';', "\\;")
  }

  /** The schedule export: line feeds last. */
  function EscapeSchedule(s: string): string {
    Replace(Replace(Replace(Replace(s, '\\', "\\\\"), ',', "\\,"), ';', "\\;"), LF, "\\n")
  }

  // ---------------------------------------------------------------------------
  // One-pass readings

  function Code(c: char): string {
    if c == '\\' then "\\\\" else if c == LF then "\\n" else if c == ',' then "\\," else if c == ';' then "\\;" else [c]
  }

  /** Escape every character on its own. */
  function Encode(s: string): string {
    if s == [] then [] else Code(s[0]) + Encode(s[1..])
  }

  /** CRLF becomes LF; a lone CR stays. */
  function Normalize(s: string): string {
    if s == [] then []
    else if StartsCrLf(s) then [LF] + Normalize(s[2..])
    else [s[0]] + Normalize(s[1..])
  }

  ghost predicate HasCrLf(s: string) {
    exists i :: 0 <= i < |s| - 1 && s[i] == CR && s[i + 1] == LF
  }

  /** The reader of RFC 5545: a backslash introduces `\`, `;`, `,`, `n` or `N`. */
  function Decode(s: string): string {
    if s == [] then []
    else if s[0] == '\\' && |s| >= 2 then
      [if s[1] == 'n' || s[1] == 'N' then LF else s[1]] + Decode(s[2..])
    else [s[0]] + Decode(s[1..])
  }

  lemma {:induction false} ReplaceConcat(a: string, b: string, c: char, with: string)
    ensures Replace(a + b, c, with) == Replace(a, c, with) + Replace(b, c, with)
  {
    if a == [] {
      assert a + b == b;
    } else {
      assert (a + b)[1..] == a[1..] + b;
      ReplaceConcat(a[1..], b, c, with);
    }
  }

  lemma {:induction false} ReplaceAbsent(s: string, c: char, with: string)
    requires c !in s
    ensures Replace(s, c, with) == s
  {
    if s != [] {
      ReplaceAbsent(s[1..], c, with);
    }
  }

  /** The last three replacements, which never look at backslashes, act character by character. */
  function Tail(s: string): string {
    Replace(Replace(Replace(s, LF, "\\n"), ',', "\\,"), ';', "\\;")
  }

  function TailSchedule(s: string): string {
    Replace(Replace(Replace(s, ',', "\\,"), ';', "\\;"), LF, "\\n")
  }

  lemma TailConcat(a: string, b: string)
    ensures Tail(a + b) == Tail(a) + Tail(b)
    ensures TailSchedule(a + b) == TailSchedule(a) + TailSchedule(b)
  {
    ReplaceConcat(a, b, LF, "\\n");
    ReplaceConcat(Replace(a, LF, "\\n"), Replace(b, LF, "\\n"), ',', "\\,");
    ReplaceConcat(Replace(Replace(a, LF, "\\n"), ',', "\\,"), Replace(Replace(b, LF, "\\n"), ',', "\\,"), ';', "\\;");
    ReplaceConcat(a, b, ',', "\\,");
    ReplaceConcat(Replace(a, ',', "\\,"), Replace(b, ',', "\\,"), ';', "\\;");
    ReplaceConcat(Replace(Replace(a, ',', "\\,"), ';', "\\;"), Replace(Replace(b, ',', "\\,"), ';', "\\;"), LF, "\\n");
  }

  lemma ReplaceOne(x: char, c: char, with: string)
    ensures Replace([x], c, with) == if x == c then with else [x]
  {
    assert [x][1..] == [];
  }

  lemma ReplaceTwo(x: char, y: char, c: char, with: string)
    requires x != c && y != c
    ensures Replace([x, y], c, with) == [x, y]
  {
    ReplaceAbsent([x, y], c, with);
  }

  lemma TailOne(x: char)
    requires x != '\\'
    ensures Tail([x]) == Code(x) && TailSchedule([x]) == Code(x)
  {
    ReplaceOne(x, LF, "\\n");
    ReplaceOne(x, ',', "\\,");
    ReplaceOne(x, ';', "\\;");
    ReplaceTwo('\\', 'n', ',', "\\,");
    ReplaceTwo('\\', 'n', ';', "\\;");
    ReplaceTwo('\\', ',', ';', "\\;");
    ReplaceTwo('\\', ',', LF, "\\n");
    ReplaceTwo('\\', ';', LF, "\\n");
  }

  lemma TailBackslashes()
    ensures Tail("\\\\") == "\\\\" && TailSchedule("\\\\") == "\\\\"
  {
    ReplaceTwo('\\', '\\', LF, "\\n");
    ReplaceTwo('\\', '\\', ',', "\\,");
    ReplaceTwo('\\', '\\', ';', "\\;");
  }

  /** Escaping the backslash first makes the order of the other replacements irrelevant. */
  lemma {:induction false} ChainIsEncode(s: string)
    ensures EscapeProject(s) == Encode(s) && EscapeSchedule(s) == Encode(s)
  {
    if s == [] {
    } else {
      ChainIsEncode(s[1..]);
      var head := if s[0] == '\\' then "\\\\" else [s[0]];
      TailConcat(head, Replace(s[1..], '\\', "\\\\"));
      if s[0] == '\\' {
        TailBackslashes();
      } else {
        TailOne(s[0]);
      }
    }
  }

  /** Replacing `\r?\n` is replacing LF after turning CRLF into LF. */
  lemma {:induction false} NewlineIsNormalize(s: string, with: string)
    ensures ReplaceNewline(s, with) == Replace(Normalize(s), LF, with)
  {
    if s == [] {
    } else if StartsCrLf(s) {
      NewlineIsNormalize(s[2..], with);
      assert ([LF] + Normalize(s[2..]))[1..] == Normalize(s[2..]);
    } else {
      NewlineIsNormalize(s[1..], with);
      assert ([s[0]] + Normalize(s[1..]))[1..] == Normalize(s[1..]);
    }
  }

  lemma NormalizeCons(c: char, t: string)
    requires !StartsCrLf([c] + t)
    ensures Normalize([c] + t) == [c] + Normalize(t)
  {
    assert ([c] + t)[1..] == t;
  }

  lemma ReplaceCons(x: char, t: string, c: char, with: string)
    ensures Replace([x] + t, c, with) == (if x == c then with else [x]) + Replace(t, c, with)
  {
    assert ([x] + t)[1..] == t;
  }

  lemma CrLfCase(t: string)
    requires Normalize(Replace(t, '\\', "\\\\")) == Replace(Normalize(t), '\\', "\\\\")
    ensures Normalize(Replace([CR] + ([LF] + t), '\\', "\\\\")) == Replace([LF] + Normalize(t), '\\', "\\\\")
  {
    var rest := Replace(t, '\\', "\\\\");
    ReplaceCons(LF, t, '\\', "\\\\");
    ReplaceCons(CR, [LF] + t, '\\', "\\\\");
    assert ([CR] + ([LF] + rest))[2..] == rest;
    ReplaceCons(LF, Normalize(t), '\\', "\\\\");
  }

  lemma PlainCase(x: char, t: string)
    requires !StartsCrLf([x] + t)
    requires Normalize(Replace(t, '\\', "\\\\")) == Replace(Normalize(t), '\\', "\\\\")
    ensures Normalize(Replace([x] + t, '\\', "\\\\")) == Replace([x] + Normalize(t), '\\', "\\\\")
  {
    var rest := Replace(t, '\\', "\\\\");
    ReplaceCons(x, t, '\\', "\\\\");
    ReplaceCons(x, Normalize(t), '\\', "\\\\");
    if x == '\\' {
      NormalizeCons('\\', rest);
      NormalizeCons('\\', ['\\'] + rest);
      assert "\\\\" + rest == ['\\'] + (['\\'] + rest);
      assert "\\\\" + Normalize(rest) == ['\\'] + (['\\'] + Normalize(rest));
    } else {
      HeadKept(x, t);
      NormalizeCons(x, rest);
    }
  }

  lemma HeadKept(x: char, t: string)
    requires !StartsCrLf([x] + t)
    ensures !StartsCrLf([x] + Replace(t, '\\', "\\\\"))
  {
  }

  lemma {:induction false} BackslashKeepsNewlines(s: string)
    ensures Normalize(Replace(s, '\\', "\\\\")) == Replace(Normalize(s), '\\', "\\\\")
  {
    if s == [] {
    } else if StartsCrLf(s) {
      BackslashKeepsNewlines(s[2..]);
      assert s == [CR] + ([LF] + s[2..]);
      CrLfCase(s[2..]);
    } else {
      BackslashKeepsNewlines(s[1..]);
      assert s == [s[0]] + s[1..];
      PlainCase(s[0], s[1..]);
    }
  }

  /** The feed escapes the text with its line breaks normalized. */
  lemma FeedIsEncode(s: string)
    ensures EscapeFeed(s) == Encode(Normalize(s))
  {
    var t := Replace(s, '\\', "\\\\");
    NewlineIsNormalize(t, "\\n");
    BackslashKeepsNewlines(s);
    ChainIsEncode(Normalize(s));
  }

  // ---------------------------------------------------------------------------
  // Round trip, no raw line feed, and agreement of the copies

  lemma DecodeCode(c: char, rest: string)
    ensures Decode(Code(c) + rest) == [c] + Decode(rest)
  {
    if |Code(c)| == 2 {
      assert (Code(c) + rest)[2..] == rest;
    } else {
      assert (Code(c) + rest)[1..] == rest;
    }
  }

  lemma {:induction false} DecodeEncode(s: string)
    ensures Decode(Encode(s)) == s
  {
    if s != [] {
      DecodeEncode(s[1..]);
      DecodeCode(s[0], Encode(s[1..]));
      assert s == [s[0]] + s[1..];
    }
  }

  lemma {:induction false} EncodeHasNoLineFeed(s: string)
    ensures LF !in Encode(s)
  {
    if s != [] {
      EncodeHasNoLineFeed(s[1..]);
    }
  }

  /** A reader gets the text back with CRLF read as LF, and no raw line feed splits the property line. */
  lemma FeedRoundTrip(s: string)
    ensures Decode(EscapeFeed(s)) == Normalize(s)
    ensures LF !in EscapeFeed(s)
  {
    FeedIsEncode(s);
    DecodeEncode(Normalize(s));
    EncodeHasNoLineFeed(Normalize(s));
  }

  /** The other two copies give the text back unchanged. */
  lemma CopiesRoundTrip(s: string)
    ensures EscapeProject(s) == EscapeSchedule(s)
    ensures Decode(EscapeProject(s)) == s && LF !in EscapeProject(s)
  {
    ChainIsEncode(s);
    DecodeEncode(s);
    EncodeHasNoLineFeed(s);
  }

  lemma {:induction false} NormalizeIff(s: string)
    ensures Normalize(s) == s <==> !HasCrLf(s)
    ensures |Normalize(s)| <= |s|
    ensures HasCrLf(s) ==> |Normalize(s)| < |s|
  {
    if s != [] {
      if StartsCrLf(s) {
        NormalizeIff(s[2..]);
      } else {
        NormalizeIff(s[1..]);
        if HasCrLf(s) {
          var i :| 0 <= i < |s| - 1 && s[i] == CR && s[i + 1] == LF;
          assert s[1..][i - 1] == CR && s[1..][i] == LF;
        }
        if HasCrLf(s[1..]) {
          var i :| 0 <= i < |s[1..]| - 1 && s[1..][i] == CR && s[1..][i + 1] == LF;
          assert s[i + 1] == CR && s[i + 1 + 1] == LF;
        }
        assert s == [s[0]] + s[1..];
      }
    }
  }

  /** The three copies agree exactly on texts without CRLF. */
  lemma CopiesAgreeIff(s: string)
    ensures EscapeFeed(s) == EscapeProject(s) <==> !HasCrLf(s)
  {
    FeedRoundTrip(s);
    CopiesRoundTrip(s);
    FeedIsEncode(s);
    ChainIsEncode(s);
    NormalizeIff(s);
  }

  /** A comma or semicolon at this place follows a backslash, and no line feed stands here. */
  predicate Shielded(s: string, i: nat)
    requires i < |s|
  {
    s[i] != LF && (s[i] == ',' || s[i] == ';' ==> i > 0 && s[i - 1] == '\\')
  }

  lemma {:induction false} EncodeShields(s: string, i: nat)
    requires i < |Encode(s)|
    ensures Shielded(Encode(s), i)
  {
    var head := Code(s[0]);
    if i >= |head| {
      EncodeShields(s[1..], i - |head|);
    }
  }

  /** In what the feed and the other copies write, separators are escaped and lines are not broken. */
  lemma SeparatorsAreEscaped(s: string)
    ensures forall i :: 0 <= i < |EscapeFeed(s)| ==> Shielded(EscapeFeed(s), i)
    ensures forall i :: 0 <= i < |EscapeProject(s)| ==> Shielded(EscapeProject(s), i)
    ensures forall i :: 0 <= i < |EscapeSchedule(s)| ==> Shielded(EscapeSchedule(s), i)
  {
    FeedIsEncode(s);
    ChainIsEncode(s);
    forall i | 0 <= i < |EscapeFeed(s)|
      ensures Shielded(EscapeFeed(s), i)
    {
      EncodeShields(Normalize(s), i);
    }
    forall i | 0 <= i < |Encode(s)|
      ensures Shielded(Encode(s), i)
    {
      EncodeShields(s, i);
    }
  }
}
