/**
 What an INI file says, in its own characters: which texts open a section, name a
 key and denote a value, which line a lookup finds, and which single line a write
 changes. The functions of IniDocument are characterised without their own terms.
 */
module IniMeaning {
  import opened Basics
  import opened IniText
  import opened IniDocument
  import opened IniRewrite

  // ---------- names ----------

  /** The same name, in whichever case its letters are written. */
  ghost predicate Spells(a: string, b: string) {
    |a| == |b| && forall i :: 0 <= i < |a| ==> SameLetter(a[i], b[i])
  }

  ghost predicate Blanks(s: string) {
    forall i :: 0 <= i < |s| ==> s[i] <= ' '
  }

  ghost predicate Edged(s: string) {
    s != "" ==> s[0] > ' ' && s[|s| - 1] > ' '
  }

  ghost predicate NamesSection(t: string, section: string, name: string, rest: string) {
    t == "[" + name + "]" + rest && ']' !in name && Spells(name, section)
  }

  /** A header opens a section exactly when the name between its brackets spells it. */
  lemma OpensExactly(t: string, section: string)
    ensures Opens(t, section) <==> exists name, rest :: NamesSection(t, section, name, rest)
  {
    if Opens(t, section) {
      var e := Find(t, ']');
      FindFirst(t, ']');
      assert t == "[" + t[1..e] + "]" + t[e + 1..];
      SameNameExactly(t[1..e], section);
      assert forall i :: 0 <= i < e - 1 ==> t[1..e][i] == t[..e][i + 1];
      assert NamesSection(t, section, t[1..e], t[e + 1..]);
    }
    if name, rest :| NamesSection(t, section, name, rest) {
      assert t == ("[" + name) + ("]" + rest);
      FindPrefix("[" + name, "]" + rest, ']');
      assert t[1..|name| + 1] == name;
      SameNameExactly(name, section);
    }
  }

  /** The text before the first '=', or before the first ':' of a line without '=', names the key. */
  ghost predicate NamesKey(t: string, key: string, name: string, gap: string, sep: char, rest: string) {
    && t == name + gap + [sep] + rest && Spells(name, key) && Blanks(gap) && (name != "" ==> name[|name| - 1] > ' ')
    && ((sep == '=' && '=' !in name + gap) || (sep == ':' && '=' !in t && ':' !in name + gap))
  }

  lemma SeparatorFound(t: string, front: string, sep: char, rest: string)
    requires t == front + [sep] + rest
    requires (sep == '=' && '=' !in front) || (sep == ':' && '=' !in t && ':' !in front)
    ensures Separator(t) == |front| < |t| && t[|front| + 1..] == rest && t[..|front|] == front
  {
    assert t == front + ([sep] + rest);
    FindPrefix(front, [sep] + rest, sep);
    if sep == ':' { FindAbsent(t, '='); }
  }

  /** A line answers to a key exactly when the name before its separator spells it, blanks in between. */
  lemma HasKeyExactly(t: string, key: string)
    ensures HasKey(t, key) <==> exists name, gap, sep, rest :: NamesKey(t, key, name, gap, sep, rest)
  {
    if HasKey(t, key) { NameOf(t, key); }
    if name, gap, sep, rest :| NamesKey(t, key, name, gap, sep, rest) { NameAnswers(t, key, name, gap, sep, rest); }
  }

  lemma NameOf(t: string, key: string)
    requires HasKey(t, key)
    ensures exists name, gap, sep, rest :: NamesKey(t, key, name, gap, sep, rest)
  {
    var e := Separator(t);
    SeparatorSplits(t);
    var name := SkipTrailing(t[..e]);
    SkipTrailingShape(t[..e]);
    SameNameExactly(name, key);
    var gap := t[..e][|name|..];
    hide Separator, SkipTrailing, SameName, NamesKey;
    NamedBefore(t, key, e, name, gap);
  }

  lemma NamedBefore(t: string, key: string, e: nat, name: string, gap: string)
    requires e < |t| && |name| <= e && name == t[..e][..|name|] && gap == t[..e][|name|..] && Spells(name, key)
    requires forall i :: |name| <= i < e ==> IsBlank(t[..e][i])
    requires name != "" ==> !IsBlank(name[|name| - 1])
    requires (t[e] == '=' && '=' !in t[..e]) || (t[e] == ':' && '=' !in t && ':' !in t[..e])
    ensures NamesKey(t, key, name, gap, t[e], t[e + 1..])
  {
    assert name + gap == t[..e];
    assert forall i :: 0 <= i < |gap| ==> gap[i] == t[..e][|name| + i];
    assert t == t[..e] + [t[e]] + t[e + 1..];
    hide Spells;
  }

  lemma SeparatorSplits(t: string)
    requires Separator(t) < |t|
    ensures var e := Separator(t);
            (t[e] == '=' && '=' !in t[..e]) || (t[e] == ':' && '=' !in t && ':' !in t[..e])
  {
    FindFirst(t, '=');
    FindFirst(t, ':');
    FindAbsent(t, '=');
    hide Find;
  }

  lemma NameAnswers(t: string, key: string, name: string, gap: string, sep: char, rest: string)
    requires NamesKey(t, key, name, gap, sep, rest)
    ensures HasKey(t, key)
  {
    SeparatorFound(t, name + gap, sep, rest);
    SkipTrailingIs(name + gap, |name|);
    assert (name + gap)[..|name|] == name;
    SameNameExactly(name, key);
    hide Separator, SkipTrailing, SameName;
  }

  // ---------- values ----------

  ghost predicate Comment(s: string) {
    s == "" || s[0] == ';' || s[0] == '#'
  }

  lemma CutAt(v: string, tail: string)
    requires ';' !in v && '#' !in v && '"' !in v && Comment(tail)
    ensures Cut(v + tail, false) == |v|
    decreases |v|
  {
    if v == "" {
      assert v + tail == tail;
    } else {
      assert (v + tail)[1..] == v[1..] + tail;
      CutAt(v[1..], tail);
    }
  }

  /**
   A plain value: whatever blanks surround it and whatever comment follows, the value
   between them is read, cut only where the caller's buffer ends.
   */
  lemma PlainValueRead(t: string, front: string, sep: char, lead: string, v: string, trail: string, comment: string,
                       size: nat)
    requires t == front + [sep] + (lead + (v + trail + comment)) && size > 0
    requires (sep == '=' && '=' !in front) || (sep == ':' && '=' !in t && ':' !in front)
    requires Blanks(lead) && Blanks(trail) && Comment(comment) && Edged(v)
    requires ';' !in v && '#' !in v && '"' !in v
    ensures Separator(t) < |t|
    ensures BoundValue(t, size) == if |v| < size then v else v[..size - 1]
  {
    hide Cut, SkipTrailing, SkipLeading, Separator, Decode, Blanks, Comment;
    SeparatorFound(t, front, sep, lead + (v + trail + comment));
    if v == "" {
      EmptyValue(lead, trail, comment, size);
      assert v + trail + comment == trail + comment;
    } else {
      BehindBlanks(lead, v + trail + comment, v[0]);
      PlainDecoded(v, trail, comment, size);
    }
  }

  lemma BehindBlanks(lead: string, t: string, c: char)
    requires Blanks(lead) && t != "" && t[0] == c && c > ' '
    ensures SkipLeading(lead + t) == t
  {
    SkipLeadingIs(lead + t, |lead|);
    assert (lead + t)[|lead|..] == t;
  }

  lemma EmptyValue(lead: string, trail: string, comment: string, size: nat)
    requires Blanks(lead) && Blanks(trail) && Comment(comment) && size > 0
    ensures Decode(SkipLeading(lead + (trail + comment)), size) == ""
  {
    SkipLeadingIs(lead + (trail + comment), |lead| + |trail|);
    assert (lead + (trail + comment))[|lead| + |trail|..] == comment;
  }

  lemma PlainDecoded(v: string, trail: string, comment: string, size: nat)
    requires v != "" && Blanks(trail) && Comment(comment) && Edged(v) && size > 0
    requires ';' !in v && '#' !in v && '"' !in v
    ensures Decode(v + trail + comment, size) == if |v| < size then v else v[..size - 1]
  {
    hide Cut, SkipTrailing;
    CutAt(v + trail, comment);
    assert ((v + trail) + comment)[..|v + trail|] == v + trail;
    SkipTrailingIs(v + trail, |v|);
    assert (v + trail)[..|v|] == v;
  }

  lemma {:induction false} NoCut(s: string, quoted: bool)
    requires ';' !in s && '#' !in s
    ensures Cut(s, quoted) == |s|
    decreases |s|
  {
    if s != "" {
      var k := CutWidth(s);
      assert forall c :: c in s[k..] ==> c in s;
      assert s[0] in s;
      CutOnce(s, quoted);
      NoCut(s[k..], if s[0] == '"' && k == 1 then !quoted else quoted);
    }
  }

  /**
   A value without comment characters that does not both begin and end with a quote is
   read as it stands, other quotes included; a lone quote is read as nothing.
   */
  lemma VerbatimRead(t: string, front: string, sep: char, lead: string, v: string, trail: string, size: nat)
    requires t == front + [sep] + (lead + (v + trail)) && size > 0
    requires (sep == '=' && '=' !in front) || (sep == ':' && '=' !in t && ':' !in front)
    requires Blanks(lead) && Blanks(trail) && v != "" && Edged(v) && ';' !in v && '#' !in v
    ensures Separator(t) < |t|
    ensures v == "\"" ==> BoundValue(t, size) == ""
    ensures v[0] != '"' || v[|v| - 1] != '"' ==> BoundValue(t, size) == if |v| < size then v else v[..size - 1]
  {
    hide Cut, SkipTrailing, SkipLeading, Separator, Decode, Blanks;
    SeparatorFound(t, front, sep, lead + (v + trail));
    BehindBlanks(lead, v + trail, v[0]);
    VerbatimDecoded(v, trail, size);
  }

  lemma VerbatimDecoded(v: string, trail: string, size: nat)
    requires Blanks(trail) && v != "" && Edged(v) && ';' !in v && '#' !in v && size > 0
    ensures v == "\"" ==> Decode(v + trail, size) == ""
    ensures v[0] != '"' || v[|v| - 1] != '"' ==>
              Decode(v + trail, size) == if |v| < size then v else v[..size - 1]
  {
    hide Cut, SkipTrailing;
    NoCut(v + trail, false);
    assert (v + trail)[..|v + trail|] == v + trail;
    SkipTrailingIs(v + trail, |v|);
    assert (v + trail)[..|v|] == v;
  }

  /** What stands between two quotes: a character, or a quote behind a backslash, or a doubled quote. */
  datatype Piece = Plain(c: char) | Escaped | Doubled

  function TextOf(ps: seq<Piece>): string {
    if ps == [] then ""
    else (match ps[0] case Plain(c) => [c] case Escaped => "\\\"" case Doubled => "\"\"") + TextOf(ps[1..])
  }

  function ValueOf(ps: seq<Piece>): string {
    if ps == [] then "" else (match ps[0] case Plain(c) => [c] case _ => "\"") + ValueOf(ps[1..])
  }

  /** No bare quote, and no backslash where it would meet one. */
  ghost predicate Readable(ps: seq<Piece>) {
    ps != [] ==>
      && ps[0] != Plain('"') && (ps[0] == Plain('\\') ==> |ps| > 1 && ps[1] != Doubled)
      && Readable(ps[1..])
  }

  lemma TextHead(ps: seq<Piece>)
    requires Readable(ps) && ps != [] && ps[0] != Doubled
    ensures TextOf(ps) != "" && TextOf(ps)[0] != '"'
  {
  }

  lemma CutDoubledQuote(t: string, quoted: bool)
    ensures Cut("\"\"" + t, quoted) == 2 + Cut(t, quoted)
  {
    assert ("\"\"" + t)[2..] == t;
  }

  lemma CutClosingQuote(tail: string)
    requires tail == "" || tail[0] != '"'
    ensures Cut("\"" + tail, true) == 1 + Cut(tail, false)
  {
    assert ("\"" + tail)[1..] == tail;
  }

  /** From inside the quotes the scan goes to the closing quote and on behind it. */
  lemma {:induction false} CutPieces(ps: seq<Piece>, tail: string)
    requires Readable(ps) && (tail == "" || tail[0] != '"')
    ensures Cut(TextOf(ps) + ("\"" + tail), true) == |TextOf(ps)| + 1 + Cut(tail, false)
    decreases |ps|
  {
    hide Cut;
    var close := "\"" + tail;
    if ps == [] {
      assert TextOf(ps) + close == close;
      CutClosingQuote(tail);
    } else {
      var e := TextOf(ps[1..]);
      CutPieces(ps[1..], tail);
      match ps[0]
      case Plain(c) =>
        if c == '\\' { TextHead(ps[1..]); }
        Associate([c], e, close);
        CutOther(c, e + close);
      case Escaped =>
        Associate("\\\"", e, close);
        CutEscapedQuote(e + close);
      case Doubled =>
        Associate("\"\"", e, close);
        CutDoubledQuote(e + close, true);
    }
  }

  lemma {:induction false} UnescapePieces(ps: seq<Piece>, room: nat)
    requires Readable(ps)
    ensures Unescape(TextOf(ps), room) == if |ValueOf(ps)| <= room then ValueOf(ps) else ValueOf(ps)[..room]
    decreases |ps|
  {
    if ps != [] && room > 0 {
      UnescapePieces(ps[1..], room - 1);
      var rest := TextOf(ps[1..]);
      match ps[0]
      case Plain(c) =>
        assert TextOf(ps) == [c] + rest && ([c] + rest)[1..] == rest;
        if c == '\\' { TextHead(ps[1..]); }
      case Escaped =>
        assert TextOf(ps) == "\\\"" + rest && ("\\\"" + rest)[2..] == rest;
      case Doubled =>
        assert TextOf(ps) == "\"\"" + rest && ("\"\"" + rest)[2..] == rest;
    }
  }

  /**
   A quoted value: everything between the quotes counts, blanks and comment characters
   included, and a quote behind a backslash or another quote stands for one quote.
   */
  lemma QuotedValueRead(t: string, front: string, sep: char, lead: string, ps: seq<Piece>, trail: string,
                        comment: string, size: nat)
    requires t == front + [sep] + (lead + ("\"" + TextOf(ps) + "\"" + trail + comment)) && size > 0
    requires (sep == '=' && '=' !in front) || (sep == ':' && '=' !in t && ':' !in front)
    requires Blanks(lead) && Blanks(trail) && Comment(comment)
    requires Readable(ps) && (ps != [] ==> ps[0] != Doubled)
    ensures Separator(t) < |t|
    ensures BoundValue(t, size) == if |ValueOf(ps)| < size then ValueOf(ps) else ValueOf(ps)[..size - 1]
  {
    hide Cut, SkipTrailing, Unescape, TextOf, ValueOf, SkipLeading, Separator, Decode;
    var all := "\"" + TextOf(ps) + "\"" + trail + comment;
    SeparatorFound(t, front, sep, lead + all);
    SkipLeadingIs(lead + all, |lead|);
    assert (lead + all)[|lead|..] == all;
    CutBehindQuotes(ps, trail, comment);
    DecodeQuotes(TextOf(ps), trail, comment, size);
    UnescapePieces(ps, size - 1);
  }

  lemma DecodeQuotes(e: string, trail: string, comment: string, size: nat)
    requires Blanks(trail) && size > 0 && Cut("\"" + e + "\"" + trail + comment, false) == |e| + 2 + |trail|
    ensures Decode("\"" + e + "\"" + trail + comment, size) == Unescape(e, size - 1)
  {
    hide Cut, SkipTrailing, Unescape;
    var q := "\"" + e + "\"";
    assert (q + trail + comment)[..|q| + |trail|] == q + trail;
    SkipTrailingIs(q + trail, |q|);
    assert (q + trail)[..|q|] == q && q[1..|q| - 1] == e;
  }

  lemma OpeningQuote(e: string, tail: string, all: string)
    requires e != "" && e[0] != '"' && all == "\"" + e + "\"" + tail
    ensures Cut(all, false) == 1 + Cut(e + ("\"" + tail), true)
  {
    assert all[1..] == e + ("\"" + tail) && all[1] == e[0];
  }

  lemma CutBehindQuotes(ps: seq<Piece>, trail: string, comment: string)
    requires Blanks(trail) && Comment(comment) && Readable(ps) && (ps != [] ==> ps[0] != Doubled)
    ensures Cut("\"" + TextOf(ps) + "\"" + trail + comment, false) == |TextOf(ps)| + 2 + |trail|
  {
    CutAt(trail, comment);
    CutPieces(ps, trail + comment);
    if ps != [] { TextHead(ps); }
    CutClosed(TextOf(ps), trail, comment);
  }

  lemma CutClosed(e: string, trail: string, comment: string)
    requires e != "" ==> e[0] != '"' && Cut(e + ("\"" + (trail + comment)), true)
                                        == |e| + 1 + Cut(trail + comment, false)
    ensures Cut("\"" + e + "\"" + trail + comment, false) == |e| + 2 + Cut(trail + comment, false)
  {
    hide Cut;
    var (all, tail) := ("\"" + e + "\"" + trail + comment, trail + comment);
    assert all == "\"" + e + "\"" + tail;
    if e == "" {
      assert all == "\"\"" + tail;
      CutDoubledQuote(tail, false);
    } else {
      OpeningQuote(e, tail, all);
    }
  }

  /** The text that the writer puts between quotes: a backslash in front of each quote, and nothing else. */
  lemma {:induction false} EscapeExactly(a: string, b: string, c: char)
    ensures EscapeAll("") == "" && EscapeAll([c]) == if c == '"' then "\\\"" else [c]
    ensures EscapeAll(a + b) == EscapeAll(a) + EscapeAll(b)
    decreases |a|
  {
    assert [c][1..] == "";
    if a == "" {
      assert a + b == b;
    } else {
      assert (a + b)[1..] == a[1..] + b;
      EscapeExactly(a[1..], b, c);
      EscapeFirst(a);
      EscapeFirst(a + b);
    }
  }

  lemma EscapeFirst(s: string)
    requires s != ""
    ensures EscapeAll(s) == (if s[0] == '"' then "\\\"" else [s[0]]) + EscapeAll(s[1..])
  {
  }

  // ---------- lines ----------

  /** A line that begins with a comment character is no entry. */
  lemma {:induction false} RemarksIgnored(a: Document, t: string, b: Document, section: string, key: string, size: nat)
    requires t != "" && (t[0] == ';' || t[0] == '#') && size > 0
    ensures Lookup(a + [t] + b, section, key, size) == Lookup(a + b, section, key, size)
    ensures FindKey(a + [t] + b, key, size) == FindKey(a + b, key, size)
    decreases |a|
  {
    if a == [] {
      assert a + [t] + b == [t] + b && ([t] + b)[1..] == b && a + b == b;
    } else {
      assert (a + [t] + b)[1..] == a[1..] + [t] + b && (a + b)[1..] == a[1..] + b;
      RemarksIgnored(a[1..], t, b, section, key, size);
    }
  }

  /** The keys of the section begin at this line: behind its first header, or at the top for the empty name. */
  ghost predicate SectionAt(doc: Document, section: string, at: nat) {
    if section == "" then at == 0
    else 0 < at <= |doc| && Opens(doc[at - 1], section) && forall j :: 0 <= j < at - 1 ==> !Opens(doc[j], section)
  }

  lemma SectionRest(doc: Document, section: string, at: nat)
    requires SectionAt(doc, section, at) && section != ""
    ensures 0 < at <= |doc| && (Opens(doc[0], section) <==> at == 1)
    ensures at > 1 ==> SectionAt(doc[1..], section, at - 1)
  {
    hide Opens;
  }

  ghost predicate Bracket(t: string) {
    t != "" && t[0] == '['
  }

  lemma {:induction false} FindKeyAt(doc: Document, key: string, size: nat, k: nat)
    requires k <= |doc| && size > 0
    requires forall j :: 0 <= j < k ==> !Bracket(doc[j]) && !Binds(doc[j], key)
    requires k < |doc| ==> Bracket(doc[k]) || Binds(doc[k], key)
    ensures FindKey(doc, key, size)
            == if k < |doc| && !Bracket(doc[k]) then Some(BoundValue(doc[k], size)) else None
    decreases k
  {
    if k > 0 { FindKeyAt(doc[1..], key, size, k - 1); }
  }

  /** A lookup finds the first line of the first such section that holds the key, and looks no further. */
  lemma {:induction false} LookupAt(doc: Document, section: string, key: string, size: nat, at: nat, k: nat)
    requires SectionAt(doc, section, at) && at <= k <= |doc| && size > 0
    requires forall j :: at <= j < k ==> !Bracket(doc[j]) && !Binds(doc[j], key)
    requires k < |doc| ==> Bracket(doc[k]) || Binds(doc[k], key)
    ensures Lookup(doc, section, key, size)
            == if k < |doc| && !Bracket(doc[k]) then Some(BoundValue(doc[k], size)) else None
    decreases at
  {
    if section == "" {
      FindKeyAt(doc, key, size, k);
    } else if at == 1 {
      FindKeyAt(doc[1..], key, size, k - 1);
    } else {
      assert SectionAt(doc[1..], section, at - 1);
      LookupAt(doc[1..], section, key, size, at - 1, k - 1);
    }
  }

  lemma {:induction false} LookupNowhere(doc: Document, section: string, key: string, size: nat)
    requires section != "" && size > 0 && forall j :: 0 <= j < |doc| ==> !Opens(doc[j], section)
    ensures Lookup(doc, section, key, size) == None
  {
    if doc != [] { LookupNowhere(doc[1..], section, key, size); }
  }

  /** The lines with the one at a place replaced, or with a new one in front of it if it is a header, or at the end. */
  function Changed(doc: Document, line: Option<string>, k: nat): Document
    requires k <= |doc|
  {
    doc[..k] + (if line.Some? then [line.value] else [])
    + if k < |doc| && !(doc[k] != "" && doc[k][0] == '[') then doc[k + 1..] else doc[k..]
  }

  lemma {:induction false} SetKeyAt(doc: Document, key: string, line: Option<string>, k: nat)
    requires k <= |doc|
    requires forall j :: 0 <= j < k ==> !Bracket(doc[j]) && !HasKey(doc[j], key)
    requires k < |doc| ==> Bracket(doc[k]) || HasKey(doc[k], key)
    ensures SetKey(doc, key, line) == Changed(doc, line, k)
    decreases k
  {
    if k > 0 {
      hide HasKey, Changed;
      SetKeyAt(doc[1..], key, line, k - 1);
      ShiftedChange(doc, line, k);
    }
  }

  lemma UpdateTop(doc: Document, section: string, key: string, line: Option<string>, at: nat)
    requires SectionAt(doc, section, at)
    ensures section == "" ==> Update(doc, section, key, line) == SetKey(doc, key, line) && at == 0
  {
  }

  lemma ShiftedChange(doc: Document, line: Option<string>, k: nat)
    requires 0 < k <= |doc|
    ensures [doc[0]] + Changed(doc[1..], line, k - 1) == Changed(doc, line, k)
  {
  }

  /**
   A write changes one line and keeps all others, comments included, in their order:
   the first line of the section that answers to the key is replaced or goes; else the
   new line comes before the next header, or at the end.
   */
  lemma {:induction false} UpdateAt(doc: Document, section: string, key: string, line: Option<string>, at: nat, k: nat)
    requires SectionAt(doc, section, at) && at <= k <= |doc|
    requires forall j :: at <= j < k ==> !Bracket(doc[j]) && !HasKey(doc[j], key)
    requires k < |doc| ==> Bracket(doc[k]) || HasKey(doc[k], key)
    ensures Update(doc, section, key, line) == Changed(doc, line, k)
    decreases at
  {
    hide SetKey, HasKey, Opens, Update, Changed, SectionAt;
    UpdateTop(doc, section, key, line, at);
    if section == "" {
      SetKeyAt(doc, key, line, k);
    } else {
      SectionRest(doc, section, at);
      var (head, rest) := (doc[0], doc[1..]);
      assert doc == [head] + rest;
      UpdateStep(head, rest, section, key, line);
      ShiftedChange(doc, line, k);
      if at == 1 {
        SetKeyAt(rest, key, line, k - 1);
      } else {
        UpdateAt(rest, section, key, line, at - 1, k - 1);
      }
    }
  }

  /** A missing section is added at the end, for a value only. */
  lemma {:induction false} UpdateNowhere(doc: Document, section: string, key: string, line: Option<string>)
    requires section != "" && forall j :: 0 <= j < |doc| ==> !Opens(doc[j], section)
    ensures Update(doc, section, key, line) == doc + if line.Some? then ["[" + section + "]", line.value] else []
  {
    if doc != [] { UpdateNowhere(doc[1..], section, key, line); }
  }

  // ---------- files ----------

  lemma LineOf(lead: string, t: string)
    requires Blanks(lead) && t != "" && t[0] > ' '
    ensures Line(lead + t) == [t]
  {
    SkipLeadingIs(lead + t, |lead|);
    assert (lead + t)[|lead|..] == t;
  }

  lemma ParseTwo(head: string, line: string, rest: string)
    requires '\n' !in head && '\n' !in line
    ensures ParseDocument(head + "\n" + (line + "\n" + rest)) == Line(head) + (Line(line) + ParseDocument(rest))
  {
    ParseLine(head);
    ParseLine(line);
    ParseJoined(line + "\n", rest);
    ParseJoined(head + "\n", line + "\n" + rest);
  }

  /** The two lines of a section and its first entry, as the reader sees them. */
  lemma FirstEntry(section: string, key: string, opener: string, lead: string, t: string, rest: string, size: nat)
    requires section != "" && Opens(opener, section) && opener[0] > ' ' && '\n' !in opener && size > 0
    requires HasKey(t, key) && t[0] > ' ' && t[0] !in {'[', ';', '#'} && '\n' !in t
    requires Blanks(lead) && '\n' !in lead
    ensures Read(Some(lead + opener + "\n" + (lead + t + "\n" + rest)), section, key, size)
            == Some(BoundValue(t, size))
  {
    LineOf(lead, opener);
    LineOf(lead, t);
    ParseTwo(lead + opener, lead + t, rest);
    var doc := [opener] + ([t] + ParseDocument(rest));
    hide ParseDocument, Lookup, Opens, HasKey, Line;
    assert doc[0] == opener && doc[1] == t;
    assert SectionAt(doc, section, 1);
    assert !Header(t) && Binds(t, key);
    LookupAt(doc, section, key, size, 1, 1);
  }

  /**
   A section and its first entry as people write them: the names in any case, blanks in
   front of each line and around name and value, a comment behind the value. Whatever
   follows in the file, the value is what a lookup gives.
   */
  lemma EntryIsRead(section: string, key: string, section': string, key': string, lead: string, junk: string,
                    gap: string, v: string, trail: string, comment: string, rest: string, size: nat)
    requires section != "" && ']' !in section && Spells(section', section) && Spells(key', key) && size > |v|
    requires key' != "" && Edged(key') && key'[0] !in {'[', ';', '#'} && '=' !in key'
    requires Blanks(lead) && Blanks(gap) && Blanks(trail) && Comment(comment) && Edged(v)
    requires ';' !in v && '#' !in v && '"' !in v
    requires '\n' !in section' + junk + lead && '\n' !in key' + gap + v + trail + comment
    ensures var opener := "[" + section' + "]" + junk;
            var entry := key' + gap + "=" + (gap + (v + trail + comment));
            Read(Some(lead + opener + "\n" + (lead + entry + "\n" + rest)), section, key, size) == Some(v)
  {
    var opener := "[" + section' + "]" + junk;
    var entry := key' + gap + "=" + (gap + (v + trail + comment));
    OpenerAsWritten(section, section', junk);
    EntryAsWritten(key, key', gap, v, trail, comment, size);
    NoLineFeed(key', gap, v, trail, comment);
    hide Opens, HasKey, BoundValue, Read, Separator, Spells, Blanks, Edged, Comment;
    FirstEntry(section, key, opener, lead, entry, rest, size);
  }

  lemma OpenerAsWritten(section: string, section': string, junk: string)
    requires Spells(section', section) && ']' !in section
    ensures Opens("[" + section' + "]" + junk, section)
  {
    SpelledWithout(section', section, ']');
    assert NamesSection("[" + section' + "]" + junk, section, section', junk);
    OpensExactly("[" + section' + "]" + junk, section);
  }

  lemma EntryAsWritten(key: string, key': string, gap: string, v: string, trail: string, comment: string, size: nat)
    requires Spells(key', key) && key' != "" && Edged(key') && '=' !in key' && size > |v|
    requires Blanks(gap) && Blanks(trail) && Comment(comment) && Edged(v)
    requires ';' !in v && '#' !in v && '"' !in v
    ensures var entry := key' + gap + "=" + (gap + (v + trail + comment));
            HasKey(entry, key) && BoundValue(entry, size) == v
  {
    var (body, entry) := (gap + (v + trail + comment), key' + gap + "=" + (gap + (v + trail + comment)));
    assert NamesKey(entry, key, key', gap, '=', body);
    HasKeyExactly(entry, key);
    PlainValueRead(entry, key' + gap, '=', gap, v, trail, comment, size);
  }

  lemma NoLineFeed(key: string, gap: string, v: string, trail: string, comment: string)
    requires '\n' !in key && '\n' !in gap && '\n' !in v && '\n' !in trail && '\n' !in comment
    ensures '\n' !in key + gap + "=" + (gap + (v + trail + comment))
  {
  }

  lemma SpelledWithout(a: string, b: string, c: char)
    requires Spells(a, b) && c !in b && !('A' <= c <= 'Z' || 'a' <= c <= 'z')
    ensures c !in a
  {
  }

  // ---------- case ----------

  lemma SpellingsAgree(a: string, b: string, t: string)
    requires Spells(a, b)
    ensures SameName(t, a) <==> SameName(t, b)
  {
    SameNameExactly(a, b);
    SameNameExactly(b, a);
    if SameName(t, a) { SameNameTransitive(t, a, b); }
    if SameName(t, b) { SameNameTransitive(t, b, a); }
  }

  lemma {:induction false} FindAnyCase(doc: Document, key: string, key': string, size: nat)
    requires Spells(key, key') && size > 0
    ensures FindKey(doc, key, size) == FindKey(doc, key', size)
  {
    if doc != [] {
      SpellingsAgree(key, key', SkipTrailing(doc[0][..Separator(doc[0])]));
      FindAnyCase(doc[1..], key, key', size);
    }
  }

  lemma {:induction false} LookupAnyCase(doc: Document, section: string, section': string, key: string, key': string,
                                        size: nat)
    requires Spells(section, section') && Spells(key, key') && size > 0
    ensures Lookup(doc, section, key, size) == Lookup(doc, section', key', size)
  {
    if section == "" {
      FindAnyCase(doc, key, key', size);
    } else if doc != [] {
      if Header(doc[0]) && Find(doc[0], ']') < |doc[0]| {
        SpellingsAgree(section, section', doc[0][1..Find(doc[0], ']')]);
      }
      FindAnyCase(doc[1..], key, key', size);
      LookupAnyCase(doc[1..], section, section', key, key', size);
    }
  }

  /** A file gives the same value for every spelling of section and key. */
  lemma ReadAnyCase(file: Option<string>, section: string, section': string, key: string, key': string, size: nat)
    requires Spells(section, section') && Spells(key, key') && size > 0
    ensures Read(file, section, key, size) == Read(file, section', key', size)
  {
    if file.Some? { LookupAnyCase(ParseDocument(file.value), section, section', key, key', size); }
  }
}
