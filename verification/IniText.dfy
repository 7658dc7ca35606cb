/**
 Character-level pieces of the INI reader and writer: blank skipping,
 case-insensitive names, quoting with a bounded buffer, and the scan that
 looks for a trailing comment.
 */
module IniText {

  /** A character the source treats as blank (7-bit characters only). */
  predicate IsBlank(c: char) {
    c <= ' '
  }

  /** The text from its first non-blank character on. */
  function SkipLeading(s: string): (r: string)
    ensures |r| <= |s|
    ensures r != "" ==> !IsBlank(r[0])
  {
    if s != "" && IsBlank(s[0]) then SkipLeading(s[1..]) else s
  }

  /** Exactly the leading blanks are gone. */
  lemma {:induction false} SkipLeadingShape(s: string)
    ensures var r := SkipLeading(s);
            r == s[|s| - |r|..] && forall i :: 0 <= i < |s| - |r| ==> IsBlank(s[i])
  {
    if s != "" && IsBlank(s[0]) {
      var r := SkipLeading(s);
      SkipLeadingShape(s[1..]);
      SliceDrop(s, 1, |s| - 1 - |r|);
      forall i | 0 < i < |s| - |r| ensures IsBlank(s[i]) { assert s[i] == s[1..][i - 1]; }
    }
  }

  /** Skipping blanks invents no character. */
  lemma SkipLeadingDrops(s: string, c: char)
    requires c !in s
    ensures c !in SkipLeading(s)
  {
    if s != "" { assert s == [s[0]] + s[1..]; }
  }

  /** The text up to its last non-blank character. */
  function SkipTrailing(s: string): (r: string)
    ensures |r| <= |s|
    ensures r != "" ==> !IsBlank(r[|r| - 1])
  {
    if s != "" && IsBlank(s[|s| - 1]) then SkipTrailing(s[..|s| - 1]) else s
  }

  /** Exactly the trailing blanks are gone. */
  lemma {:induction false} SkipTrailingShape(s: string)
    ensures var r := SkipTrailing(s);
            r == s[..|r|] && forall i :: |r| <= i < |s| ==> IsBlank(s[i])
  {
    if s != "" && IsBlank(s[|s| - 1]) {
      var r := SkipTrailing(s);
      SkipTrailingShape(s[..|s| - 1]);
      SliceTake(s, 0, |r|, |s| - 1);
      forall i | |r| <= i < |s| - 1 ensures IsBlank(s[i]) { assert s[i] == s[..|s| - 1][i]; }
    }
  }

  /** Position of the first occurrence of a character, or the length when there is none. */
  function Find(s: string, c: char): (n: nat)
    ensures n <= |s|
    ensures n < |s| ==> s[n] == c
  {
    if s == "" || s[0] == c then 0 else 1 + Find(s[1..], c)
  }

  lemma FindFirst(s: string, c: char)
    ensures c !in s[..Find(s, c)]
  {
    if s == "" || s[0] == c {
    } else {
      FindFirst(s[1..], c);
      assert s[..Find(s, c)] == [s[0]] + s[1..][..Find(s[1..], c)];
    }
  }

  function Fold(c: char): char {
    if 'A' <= c <= 'Z' then (c as int + 32) as char else c
  }

  /** Equality of names without regard to the case of letters. */
  predicate SameName(a: string, b: string) {
    |a| == |b| && forall i :: 0 <= i < |a| ==> Fold(a[i]) == Fold(b[i])
  }

  /** The same character, or the same letter in the other case. */
  predicate SameLetter(c: char, d: char) {
    || c == d
    || ('A' <= c <= 'Z' && d as int == c as int + 32)
    || ('A' <= d <= 'Z' && c as int == d as int + 32)
  }

  /** Names are compared letter by letter, in whichever case they are written. */
  lemma SameNameExactly(a: string, b: string)
    ensures SameName(a, b) <==> |a| == |b| && forall i :: 0 <= i < |a| ==> SameLetter(a[i], b[i])
  {
    if |a| == |b| {
      forall i | 0 <= i < |a| ensures Fold(a[i]) == Fold(b[i]) <==> SameLetter(a[i], b[i]) {
        FoldedLetters(a[i], b[i]);
      }
    }
  }

  lemma FoldedLetters(c: char, d: char)
    ensures Fold(c) == Fold(d) <==> SameLetter(c, d)
  {
  }

  lemma SliceTake<T>(s: seq<T>, i: nat, k: nat, j: nat)
    requires i <= k <= j <= |s|
    ensures s[i..j][..k - i] == s[i..k]
  {
  }

  lemma SliceDrop<T>(s: seq<T>, i: nat, k: nat)
    requires i + k <= |s|
    ensures s[i..][k..] == s[i + k..]
  {
  }

  lemma Associate<T>(a: seq<T>, b: seq<T>, c: seq<T>)
    ensures a + (b + c) == (a + b) + c
  {
  }

  lemma FindPrefix(s: string, t: string, c: char)
    requires c !in s
    ensures Find(s + t, c) == |s| + Find(t, c)
  {
    if s == "" {
      assert s + t == t;
    } else {
      assert (s + t)[1..] == s[1..] + t;
      FindPrefix(s[1..], t, c);
    }
  }

  lemma FindExtended(s: string, t: string, c: char)
    requires Find(s, c) < |s|
    ensures Find(s + t, c) == Find(s, c)
  {
    if s[0] == c {
    } else {
      assert (s + t)[1..] == s[1..] + t;
      FindExtended(s[1..], t, c);
    }
  }

  lemma FindAbsent(s: string, c: char)
    ensures Find(s, c) == |s| <==> c !in s
  {
    if s == "" || s[0] == c {
    } else {
      FindAbsent(s[1..], c);
      assert s == [s[0]] + s[1..];
    }
  }

  lemma SkipTrailingDrops(s: string, c: char)
    requires c !in s
    ensures c !in SkipTrailing(s)
  {
    SkipTrailingShape(s);
  }

  lemma {:induction false} SkipLeadingIs(s: string, k: nat)
    requires k <= |s|
    requires forall i :: 0 <= i < k ==> IsBlank(s[i])
    requires k < |s| ==> !IsBlank(s[k])
    ensures SkipLeading(s) == s[k..]
  {
    if k > 0 {
      SkipLeadingIs(s[1..], k - 1);
      SliceDrop(s, 1, k - 1);
    }
  }

  lemma {:induction false} SkipTrailingIs(s: string, k: nat)
    requires k <= |s|
    requires forall i :: k <= i < |s| ==> IsBlank(s[i])
    requires 0 < k ==> !IsBlank(s[k - 1])
    ensures SkipTrailing(s) == s[..k]
  {
    if k < |s| {
      SkipTrailingIs(s[..|s| - 1], k);
      SliceTake(s, 0, k, |s| - 1);
    } else {
      assert s[..k] == s;
    }
  }

  /** Blanks written behind a text do not change what is left of it. */
  lemma SkipTrailingPadded(s: string, t: string)
    requires forall c :: c in t ==> IsBlank(c)
    ensures SkipTrailing(s + t) == SkipTrailing(s)
  {
    var r := SkipTrailing(s);
    SkipTrailingShape(s);
    forall i | |r| <= i < |s + t| ensures IsBlank((s + t)[i]) {
      if i >= |s| { assert (s + t)[i] == t[i - |s|]; }
    }
    SkipTrailingIs(s + t, |r|);
    assert (s + t)[..|r|] == s[..|r|];
  }

  // ---------- bounded quoting (save_strncpy) ----------

  datatype Quote = NoQuote | Enquote | Dequote

  /** The first n characters of a text, or all of it. */
  function Clip(s: string, n: nat): (r: string)
    ensures r <= s && |r| <= n
  {
    if |s| <= n then s else s[..n]
  }

  /** A text with a backslash before every double quote, cut off where room ends. */
  function Escape(s: string, room: nat): (r: string)
    ensures |r| <= room
  {
    if s == "" || room == 0 then ""
    else if s[0] == '"' then
      if room < 2 then "" else "\\\"" + Escape(s[1..], room - 2)
    else [s[0]] + Escape(s[1..], room - 1)
  }

  /** The inverse walk: a backslash or a double quote before a double quote is dropped. */
  function Unescape(s: string, room: nat): (r: string)
    ensures |r| <= room && |r| <= |s|
  {
    if s == "" || room == 0 then ""
    else if |s| >= 2 && (s[0] == '"' || s[0] == '\\') && s[1] == '"' then
      "\"" + Unescape(s[2..], room - 1)
    else [s[0]] + Unescape(s[1..], room - 1)
  }

  /** Space an escaped text needs. */
  function EscapedLength(s: string): (n: nat)
    ensures n >= |s|
  {
    if s == "" then 0 else (if s[0] == '"' then 2 else 1) + EscapedLength(s[1..])
  }

  function EscapeAll(s: string): string {
    Escape(s, EscapedLength(s))
  }

  /** Bytes save_strncpy leaves in a destination of maxlen cells, terminator excluded. */
  function Stored(source: string, maxlen: nat, option: Quote): (r: string)
    requires maxlen > 0
    ensures |r| < maxlen
  {
    match option
    case Enquote =>
      if maxlen < 3 then Clip(source, maxlen - 1)
      else "\"" + Escape(source, maxlen - 3) + "\""
    case NoQuote => Clip(source, maxlen - 1)
    case Dequote => Unescape(source, maxlen - 1)
  }

  /** Enough room means no cut. */
  lemma {:induction false} EscapeRoomy(s: string, room: nat)
    requires room >= EscapedLength(s)
    ensures Escape(s, room) == EscapeAll(s)
    ensures |Escape(s, room)| == EscapedLength(s)
    decreases |s|
  {
    if s != "" {
      var w := if s[0] == '"' then 2 else 1;
      EscapeRoomy(s[1..], room - w);
      EscapeRoomy(s[1..], EscapedLength(s) - w);
    }
  }

  /** Number of characters one step of dequoting consumes. */
  function UnescapeWidth(s: string): (k: nat)
    requires s != ""
    ensures 1 <= k <= 2 && k <= |s|
  {
    if |s| >= 2 && (s[0] == '"' || s[0] == '\\') && s[1] == '"' then 2 else 1
  }

  lemma UnescapeOnce(s: string, room: nat)
    requires s != "" && room > 0
    ensures Unescape(s, room) == [s[UnescapeWidth(s) - 1]] + Unescape(s[UnescapeWidth(s)..], room - 1)
  {
  }

  /** A smaller room only cuts the dequoted text short. */
  lemma {:induction false} UnescapeClips(s: string, room: nat)
    ensures Unescape(s, room) == Clip(Unescape(s, |s|), room)
    decreases |s|, room
  {
    if s != "" && room > 0 {
      UnescapeOnce(s, room);
      UnescapeOnce(s, |s|);
      hide Unescape, UnescapeWidth;
      var t := s[UnescapeWidth(s)..];
      UnescapeClips(t, room - 1);
      UnescapeClips(t, |s| - 1);
    }
  }

  /** The head of an escaped text is never a bare double quote. */
  lemma EscapeHead(s: string, room: nat)
    ensures Escape(s, room) != "" ==> Escape(s, room)[0] != '"'
  {
  }

  lemma UnescapeQuote(t: string, room: nat)
    requires room > 0
    ensures Unescape("\\\"" + t, room) == "\"" + Unescape(t, room - 1)
  {
    assert ("\\\"" + t)[2..] == t;
  }

  lemma UnescapeOther(c: char, t: string, room: nat)
    requires room > 0 && c != '"' && (t != "" ==> t[0] != '"')
    ensures Unescape([c] + t, room) == [c] + Unescape(t, room - 1)
  {
    assert ([c] + t)[1..] == t;
  }

  lemma PrefixConsed(c: char, r: string, s: string)
    requires r <= s
    ensures [c] + r <= [c] + s
  {
  }

  /**
   Dequoting what enquoting stored gives back a prefix of the text whatever the
   two capacities are, and the whole text when both capacities suffice.
   */
  lemma {:induction false} QuotingRoundTrip(s: string, room: nat, room': nat)
    ensures Unescape(Escape(s, room), room') <= s
    ensures room >= EscapedLength(s) && room' >= |s| ==> Unescape(Escape(s, room), room') == s
    decreases |s|
  {
    if s != "" && room' > 0 && Escape(s, room) != "" {
      hide Unescape;
      var w := if s[0] == '"' then 2 else 1;
      var rest := Escape(s[1..], room - w);
      QuotingRoundTrip(s[1..], room - w, room' - 1);
      PrefixConsed(s[0], Unescape(rest, room' - 1), s[1..]);
      if s[0] == '"' {
        UnescapeQuote(rest, room');
      } else {
        EscapeHead(s[1..], room - 1);
        UnescapeOther(s[0], rest, room');
      }
      hide Escape;
      assert s == [s[0]] + s[1..];
    }
  }

  // ---------- the comment scan ----------

  /** Index at which a trailing comment starts, or the length. Quoted stretches are skipped. */
  function Cut(s: string, quoted: bool): (n: nat)
    ensures n <= |s|
    ensures n < |s| ==> s[n] == ';' || s[n] == '#'
  {
    if s == "" || ((s[0] == ';' || s[0] == '#') && !quoted) then 0
    else if s[0] == '"' then
      if |s| >= 2 && s[1] == '"' then 2 + Cut(s[2..], quoted) else 1 + Cut(s[1..], !quoted)
    else if s[0] == '\\' && |s| >= 2 && s[1] == '"' then 2 + Cut(s[2..], quoted)
    else 1 + Cut(s[1..], quoted)
  }

  lemma {:induction false} CutPlain(s: string)
    requires ';' !in s && '#' !in s && '"' !in s
    ensures Cut(s, false) == |s|
  {
    if s != "" {
      assert s == [s[0]] + s[1..];
      CutPlain(s[1..]);
    }
  }

  /** One step of the scan: how far it goes and whether it is inside quotes afterwards. */
  function CutWidth(s: string): (k: nat)
    requires s != ""
    ensures 1 <= k <= 2 && k <= |s|
  {
    if |s| >= 2 && s[1] == '"' && (s[0] == '"' || s[0] == '\\') then 2 else 1
  }

  lemma CutOnce(s: string, quoted: bool)
    requires s != "" && ((s[0] != ';' && s[0] != '#') || quoted)
    ensures Cut(s, quoted) == CutWidth(s) + Cut(s[CutWidth(s)..], if s[0] == '"' &&
              CutWidth(s) == 1 then !quoted else quoted)
  {
  }

  lemma CutEscapedQuote(t: string)
    ensures Cut("\\\"" + t, true) == 2 + Cut(t, true)
  {
    assert ("\\\"" + t)[2..] == t;
  }

  lemma CutOther(c: char, t: string)
    requires c != '"'
    ensures t != "" && t[0] == '"' && c == '\\' ==> Cut([c] + t, true) >= 2
    ensures !(t != "" && t[0] == '"' && c == '\\') ==> Cut([c] + t, true) == 1 + Cut(t, true)
  {
    assert ([c] + t)[1..] == t;
  }

  /** Inside an escaped text followed by its closing quote the scan never stops. */
  lemma {:induction false} CutInsideQuotes(s: string, room: nat, tail: string)
    ensures Cut(Escape(s, room) + ("\"" + tail), true) > |Escape(s, room)|
    decreases |s|
  {
    var close := "\"" + tail;
    if Escape(s, room) == "" {
      assert Escape(s, room) + close == close && close[0] == '"';
    } else {
      hide Cut;
      var w := if s[0] == '"' then 2 else 1;
      var rest := Escape(s[1..], room - w);
      CutInsideQuotes(s[1..], room - w, tail);
      EscapeHead(s[1..], room - w);
      if w == 2 {
        Associate("\\\"", rest, close);
        CutEscapedQuote(rest + close);
      } else {
        // when the last character is a backslash the closing quote is swallowed with it
        Associate([s[0]], rest, close);
        CutOther(s[0], rest + close);
      }
    }
  }

  /** The comment scan never cuts inside a quoted value, whatever follows it. */
  lemma CutQuoted(s: string, room: nat, tail: string)
    ensures Cut("\"" + Escape(s, room) + "\"" + tail, false) >= |"\"" + Escape(s, room) + "\""|
  {
    var u := "\"" + Escape(s, room) + "\"" + tail;
    EscapeHead(s, room);
    CutInsideQuotes(s, room, tail);
    hide Escape;
    if Escape(s, room) == "" {
      assert u[0] == '"' && u[1] == '"';
    } else {
      assert u[1] == Escape(s, room)[0];
      assert u[1..] == Escape(s, room) + ("\"" + tail);
    }
    CutOnce(u, false);
  }

  /** A line feed behind a value changes neither the cut nor what is left after stripping. */
  lemma {:induction false} CutNewline(s: string, quoted: bool)
    ensures Cut(s + "\n", quoted) == (if Cut(s, quoted) == |s| then |s| + 1 else Cut(s, quoted))
    decreases |s|
  {
    var u := s + "\n";
    if s == "" {
      assert u[1..] == "";
    } else if (s[0] == ';' || s[0] == '#') && !quoted {
    } else {
      CutOnce(s, quoted);
      CutOnce(u, quoted);
      CutWidthNewline(s);
      hide Cut, CutWidth;
      var k := CutWidth(s);
      CutNewline(s[k..], if s[0] == '"' && k == 1 then !quoted else quoted);
    }
  }

  lemma CutWidthNewline(s: string)
    requires s != ""
    ensures var k := CutWidth(s); CutWidth(s + "\n") == k && (s + "\n")[k..] == s[k..] + "\n"
  {
    assert |s| >= 2 ==> (s + "\n")[1] == s[1];
  }
}
