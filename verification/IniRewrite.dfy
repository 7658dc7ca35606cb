/**
 The INI file as text. ParseDocument reads the list of lines out of a file;
 Rewritten is the whole-file rewriting of ini_puts, with its separators, forced
 line feeds and dropped blank lines. The main results say that rewriting is
 Update on documents, and hence that reading and writing form a lens.
 */
module IniRewrite {
  import opened Basics
  import opened IniText
  import opened IniDocument

  const BUFFER_SIZE: nat := 512

  // ---------- from text to lines ----------

  /** Length of the first line, its line feed included. */
  function LineLength(s: string): (n: nat)
    requires s != ""
    ensures 0 < n <= |s|
  {
    if Find(s, '\n') < |s| then Find(s, '\n') + 1 else |s|
  }

  /** The non-blank lines of a text, leading blanks and line feeds removed. */
  function ParseDocument(s: string): (d: Document)
    decreases |s|
  {
    if s == "" then []
    else Line(s[..Find(s, '\n')]) + ParseDocument(s[LineLength(s)..])
  }

  function Line(content: string): Document {
    if SkipLeading(content) == "" then [] else [SkipLeading(content)]
  }

  /** Every line with its line feed fits the buffer, so fgets reads whole lines. */
  ghost predicate LinesFit(s: string)
    decreases |s|
  {
    s != "" ==> Find(s, '\n') + 2 <= BUFFER_SIZE && LinesFit(s[LineLength(s)..])
  }

  ghost predicate Terminated(s: string) {
    s != "" ==> s[|s| - 1] == '\n'
  }

  lemma FirstLine(a: string, b: string)
    requires a != "" && Terminated(a)
    ensures Find(a, '\n') < |a| && Find(a + b, '\n') == Find(a, '\n')
    ensures (a + b)[..Find(a, '\n')] == a[..Find(a, '\n')]
    ensures (a + b)[LineLength(a + b)..] == a[LineLength(a)..] + b
    ensures Terminated(a[LineLength(a)..])
  {
    FindAbsent(a, '\n');
    assert a[|a| - 1] in a;
    FindExtended(a, b, '\n');
  }

  lemma ParseFirst(a: string, b: string)
    requires a != "" && Terminated(a)
    ensures var first := Line(a[..Find(a, '\n')]); var rest := a[LineLength(a)..];
            Terminated(rest) && ParseDocument(a) == first + ParseDocument(rest) &&
            ParseDocument(a + b) == first + ParseDocument(rest + b)
  {
    FirstLine(a, b);
  }

  lemma {:induction false} ParseJoined(a: string, b: string)
    requires Terminated(a)
    ensures ParseDocument(a + b) == ParseDocument(a) + ParseDocument(b)
    decreases |a|
  {
    if a == "" {
      assert a + b == b;
      assert ParseDocument(a) == [];
    } else {
      ParseFirst(a, b);
      var rest := a[LineLength(a)..];
      ParseJoined(rest, b);
      Associate(Line(a[..Find(a, '\n')]), ParseDocument(rest), ParseDocument(b));
    }
  }

  lemma {:induction false} FitJoined(a: string, b: string)
    requires Terminated(a) && LinesFit(a) && LinesFit(b)
    ensures LinesFit(a + b)
    decreases |a|
  {
    if a == "" {
      assert a + b == b;
    } else {
      FirstLine(a, b);
      FitJoined(a[LineLength(a)..], b);
    }
  }

  /** A line feed behind the last line, terminated or not, adds nothing to the document. */
  lemma {:induction false} ParseNewline(a: string)
    ensures ParseDocument(a + "\n") == ParseDocument(a)
    ensures LinesFit(a) ==> LinesFit(a + "\n")
    decreases |a|
  {
    var s := a + "\n";
    FindAbsent(a, '\n');
    if Find(a, '\n') < |a| {
      FindExtended(a, "\n", '\n');
      assert s[LineLength(s)..] == a[LineLength(a)..] + "\n";
      assert s[..Find(a, '\n')] == a[..Find(a, '\n')];
      ParseNewline(a[LineLength(a)..]);
    } else {
      FindPrefix(a, "\n", '\n');
      assert s[..|a|] == a && s[LineLength(s)..] == "";
      assert ParseDocument("") == [];
      if a != "" { assert a[..Find(a, '\n')] == a && a[LineLength(a)..] == ""; }
    }
  }

  lemma ParseLine(t: string)
    requires '\n' !in t
    ensures ParseDocument(t) == Line(t) && ParseDocument(t + "\n") == Line(t)
    ensures |t| + 2 <= BUFFER_SIZE ==> LinesFit(t) && LinesFit(t + "\n")
  {
    FindAbsent(t, '\n');
    hide Find;
    if t != "" { assert t[..|t|] == t && t[LineLength(t)..] == ""; }
    assert ParseDocument("") == [] && LinesFit("");
    ParseNewline(t);
  }

  // ---------- one line of a file ----------

  lemma NewlineKept(c: string)
    ensures SkipLeading(c + "\n") == if SkipLeading(c) == "" then "" else SkipLeading(c) + "\n"
  {
    var r := SkipLeading(c);
    var k := |c| - |r|;
    SkipLeadingShape(c);
    if r == "" {
      SkipLeadingIs(c + "\n", |c| + 1);
    } else {
      SkipLeadingIs(c + "\n", k);
      assert (c + "\n")[k..] == c[k..] + "\n";
    }
  }

  /** The first line as read, leading blanks skipped; empty exactly when the line is blank. */
  function Stripped(s: string): string
    requires s != ""
  {
    SkipLeading(s[..LineLength(s)])
  }

  /** The stripped first line with its line feed if it has one. */
  lemma StrippedShape(s: string)
    requires s != ""
    ensures var t := SkipLeading(s[..Find(s, '\n')]);
            '\n' !in t && Stripped(s) == if t != "" && LineLength(s) == Find(s, '\n') + 1 then t + "\n" else t
  {
    var n := Find(s, '\n');
    var c := s[..n];
    NewlineKept(c);
    if n < |s| { assert s[..LineLength(s)] == c + "\n"; } else { assert s[..LineLength(s)] == c; }
    FindFirst(s, '\n');
    SkipLeadingDrops(c, '\n');
  }

  /** The text of a line as read denotes what the stripped line denotes, with or without line feed. */
  lemma StrippedLine(s: string)
    requires s != ""
    ensures Stripped(s) == "" <==> Line(s[..Find(s, '\n')]) == []
    ensures ParseDocument(Stripped(s)) == Line(s[..Find(s, '\n')])
    ensures LineLength(s) < |s| ==> Terminated(Stripped(s))
    ensures LinesFit(s) ==> LinesFit(Stripped(s))
  {
    StrippedShape(s);
    var t := SkipLeading(s[..Find(s, '\n')]);
    ParseLine(t);
    if t != "" { SkipLeadingIs(t, 0); }
  }

  lemma OpensAlike(t: string, section: string)
    requires t != ""
    ensures Opens(t + "\n", section) <==> Opens(t, section)
  {
    hide Find, SameName;
    FindBehind(t, ']');
    var e := Find(t, ']');
    if Header(t) && e < |t| { assert (t + "\n")[1..e] == t[1..e]; }
  }

  lemma SeparatorAlike(t: string)
    ensures Separator(t + "\n") == if Separator(t) < |t| then Separator(t) else |t| + 1
  {
    hide Find;
    FindBehind(t, '=');
    FindBehind(t, ':');
  }

  lemma HasKeyAlike(t: string, key: string)
    ensures HasKey(t + "\n", key) <==> HasKey(t, key)
  {
    SeparatorAlike(t);
    hide Separator, SkipTrailing, SameName;
    var e := Separator(t);
    if e < |t| { assert (t + "\n")[..e] == t[..e]; }
  }

  lemma BoundValueAlike(t: string, size: nat)
    requires size > 0 && Separator(t) < |t|
    ensures Separator(t + "\n") < |t + "\n"|
    ensures BoundValue(t + "\n", size) == BoundValue(t, size)
  {
    SeparatorAlike(t);
    hide Separator, SkipLeading, Decode;
    var e := Separator(t);
    assert (t + "\n")[e + 1..] == t[e + 1..] + "\n";
    NewlineKept(t[e + 1..]);
    DecodeNewline(SkipLeading(t[e + 1..]), size);
  }

  /** The reader's tests give the same answer on a line as read and on the stripped line. */
  lemma ReadAlike(t: string, section: string, key: string, size: nat)
    requires t != "" && size > 0
    ensures Header(t + "\n") <==> Header(t)
    ensures Opens(t + "\n", section) <==> Opens(t, section)
    ensures Remark(t + "\n") <==> Remark(t)
    ensures HasKey(t + "\n", key) <==> HasKey(t, key)
    ensures HasKey(t, key) ==> BoundValue(t + "\n", size) == BoundValue(t, size)
  {
    OpensAlike(t, section);
    HasKeyAlike(t, key);
    if Separator(t) < |t| { BoundValueAlike(t, size); }
    hide Opens, BoundValue;
  }

  lemma FindBehind(t: string, c: char)
    requires c != '\n'
    ensures Find(t + "\n", c) == if Find(t, c) < |t| then Find(t, c) else |t| + 1
  {
    FindAbsent(t, c);
    if Find(t, c) < |t| { FindExtended(t, "\n", c); } else { FindPrefix(t, "\n", c); }
  }

  lemma DecodeNewline(v: string, size: nat)
    requires size > 0
    ensures Decode(v + "\n", size) == Decode(v, size)
  {
    hide Cut, SkipTrailing, Unescape, Clip;
    CutNewline(v, false);
    var k := Cut(v, false);
    if k == |v| {
      assert (v + "\n")[..k + 1] == v[..k] + "\n";
      SkipTrailingPadded(v[..k], "\n");
    } else {
      assert (v + "\n")[..k] == v[..k];
    }
  }

  // ---------- the writer's output ----------

  /** writesection, for a name that fits. */
  function SectionText(section: string): string {
    if section == "" then ""
    else "[" + Clip(section, BUFFER_SIZE - 5) + "]\n"
  }

  /** writekey: key and value are cut to the line buffer. */
  function KeyText(key: string, v: string): string {
    var k := Clip(key, BUFFER_SIZE - 4);
    k + "=" + Stored(v, BUFFER_SIZE - (|k| + 1) - 2, if Enquoted(v) then Enquote else NoQuote) + "\n"
  }

  function NewKeyText(key: string, value: Option<string>): string {
    if value.Some? then KeyText(key, value.value) else ""
  }

  /** Copy of the lines behind the change: blank lines go, a blank line is put before each header. */
  function CopyRest(s: string): string
    decreases |s|
  {
    if s == "" then ""
    else
      var sp := Stripped(s);
      var rest := CopyRest(s[LineLength(s)..]);
      if sp == "" then rest
      else if Header(sp) then "\n" + (sp + rest)
      else sp + rest
  }

  /** The part of the rewritten file from the start of the section's keys on. */
  function RewriteKeys(s: string, key: string, value: Option<string>): string
    decreases |s|
  {
    if s == "" then
      if value.Some? then "\n" + KeyText(key, value.value) else ""
    else
      var sp := Stripped(s);
      var rest := s[LineLength(s)..];
      if Header(sp) then
        if value.Some? then (KeyLine(key, value.value) + "\n") + ("\n" + (sp + CopyRest(rest)))
        else sp + CopyRest(rest)
      else if HasKey(sp, key) then NewKeyText(key, value) + CopyRest(rest)
      else if sp == "" then RewriteKeys(rest, key, value)
      else sp + RewriteKeys(rest, key, value)
  }

  /** The rewritten file from a line before the section on; written says whether a line was written already. */
  function RewriteSections(s: string, written: bool, section: string, key: string, value: Option<string>): string
    decreases |s|
  {
    if s == "" then
      if value.Some? then "\n" + (SectionText(section) + KeyText(key, value.value)) else ""
    else
      var sp := Stripped(s);
      var rest := s[LineLength(s)..];
      var tail := if Opens(sp, section) then RewriteKeys(rest, key, value)
                  else RewriteSections(rest, written || sp != "", section, key, value);
      if sp == "" then tail
      else if Header(sp) && written then "\n" + (sp + tail)
      else sp + tail
  }

  function Rewritten(s: string, section: string, key: string, value: Option<string>): string {
    if section == "" then RewriteKeys(s, key, value)
    else RewriteSections(s, false, section, key, value)
  }

  /** Reading from a file that may not exist. */
  function Read(file: Option<string>, section: string, key: string, size: nat): (r: Option<string>)
    requires size > 0
    ensures r.Some? ==> |r.value| < size
  {
    if file == None then None else Lookup(ParseDocument(file.value), section, key, size)
  }

  /** The file after ini_puts; a value of None erases the key. */
  function Put(file: Option<string>, section: string, key: string, value: Option<string>): Option<string> {
    if file == None then
      if value.Some? then Some(SectionText(section) + KeyText(key, value.value)) else None
    else if value.Some? && Read(file, section, key, BUFFER_SIZE) == value then file
    else Some(Rewritten(file.value, section, key, value))
  }

  // ---------- what fits ----------

  /** The entry is not cut by the line buffer. */
  predicate Fits(section: string, key: string, v: string) {
    |section| <= BUFFER_SIZE - 5 && |key| + |Encode(v)| <= BUFFER_SIZE - 4
  }

  lemma KeyTextFits(key: string, v: string)
    requires |key| + |Encode(v)| <= BUFFER_SIZE - 4
    ensures KeyText(key, v) == KeyLine(key, v) + "\n"
  {
    if Enquoted(v) { EscapedKeepsBlanks(v); EscapeRoomy(v, BUFFER_SIZE - |key| - 6); }
  }

  /** The line stored in a document for a value. */
  function EntryLine(key: string, value: Option<string>): Option<string> {
    if value.Some? then Some(KeyLine(key, value.value)) else None
  }

  ghost predicate GoodRequest(section: string, key: string, value: Option<string>) {
    WellFormedSection(section) && WellFormedKey(key) &&
    (value.Some? ==> '\n' !in value.value && Fits(section, key, value.value))
  }

  lemma EscapeOnlyAdds(s: string, room: nat, c: char)
    requires c !in s && c != '\\'
    ensures c !in Escape(s, room)
  {
    if s != "" {
      assert s == [s[0]] + s[1..];
    }
  }

  lemma KeyTextParses(key: string, v: string)
    requires WellFormedKey(key) && '\n' !in v && |key| + |Encode(v)| <= BUFFER_SIZE - 4
    ensures ParseDocument(KeyText(key, v)) == [KeyLine(key, v)]
    ensures LinesFit(KeyText(key, v)) && Terminated(KeyText(key, v))
  {
    KeyTextFits(key, v);
    KeyLineParts(key, v);
    EscapeOnlyAdds(v, EscapedLength(v), '\n');
    ParseLine(KeyLine(key, v));
  }

  lemma SectionTextParses(section: string)
    requires WellFormedSection(section) && |section| <= BUFFER_SIZE - 5
    ensures ParseDocument(SectionText(section)) == if section == "" then [] else ["[" + section + "]"]
    ensures LinesFit(SectionText(section)) && Terminated(SectionText(section))
  {
    if section != "" {
      HeaderLineParts(section);
      ParseLine("[" + section + "]");
      assert SectionText(section) == ("[" + section + "]") + "\n";
    }
  }

  // ---------- rewriting is Update ----------

  lemma ParseBlankFirst(s: string)
    ensures ParseDocument("\n" + s) == ParseDocument(s)
    ensures LinesFit(s) ==> LinesFit("\n" + s)
  {
    ParseLine("");
    assert "" + "\n" == "\n";
    ParseJoined("\n", s);
    if LinesFit(s) { FitJoined("\n", s); }
  }

  lemma ParseUnterminated(sp: string, rest: string)
    ensures ParseDocument(sp + ("\n" + rest)) == ParseDocument(sp) + ParseDocument("\n" + rest)
    ensures LinesFit(sp) && LinesFit("\n" + rest) ==> LinesFit(sp + ("\n" + rest))
  {
    hide ParseDocument;
    ParseNewline(sp);
    ParseJoined(sp + "\n", rest);
    ParseBlankFirst(rest);
    Associate(sp, "\n", rest);
    if LinesFit(sp) && LinesFit("\n" + rest) {
      assert Find("\n" + rest, '\n') == 0 && ("\n" + rest)[1..] == rest;
      hide LinesFit;
      FitJoined(sp + "\n", rest);
    }
  }

  /** A line copied before further text keeps its place in the document. */
  lemma CopyLine(s: string, tail: string)
    requires s != "" && (s[LineLength(s)..] == "" ==> tail == "" || tail[0] == '\n')
    ensures ParseDocument(Stripped(s) + tail) == Line(s[..Find(s, '\n')]) + ParseDocument(tail)
    ensures LinesFit(s) && LinesFit(tail) ==> LinesFit(Stripped(s) + tail)
  {
    hide ParseDocument, Line, LinesFit, Stripped;
    StrippedLine(s);
    var sp := Stripped(s);
    if LineLength(s) < |s| {
      ParseJoined(sp, tail);
      if LinesFit(s) && LinesFit(tail) { FitJoined(sp, tail); }
    } else if tail == "" {
      assert sp + tail == sp;
      ParseEmpty(sp);
    } else {
      assert tail == "\n" + tail[1..];
      ParseUnterminated(sp, tail[1..]);
    }
  }

  lemma ParseEmpty(s: string)
    ensures ParseDocument("") == [] && ParseDocument(s) + ParseDocument("") == ParseDocument(s)
  {
  }

  lemma {:induction false} CopyKeepsDocument(s: string)
    ensures ParseDocument(CopyRest(s)) == ParseDocument(s)
    ensures LinesFit(s) ==> LinesFit(CopyRest(s))
    decreases |s|
  {
    if s != "" {
      var rest := s[LineLength(s)..];
      CopyKeepsDocument(rest);
      if Stripped(s) == "" {
        BlankFirstLine(s);
      } else {
        assert ParseDocument(s) == Line(s[..Find(s, '\n')]) + ParseDocument(rest);
        hide ParseDocument, Line, LinesFit, Stripped;
        CopyLine(s, CopyRest(rest));
        ParseBlankFirst(Stripped(s) + CopyRest(rest));
      }
    }
  }

  /** The first line of a text and the first line of its document agree. */
  lemma HeadAgrees(s: string, section: string, key: string)
    requires s != "" && Stripped(s) != "" && '\n' !in section
    ensures ParseDocument(s) == [SkipLeading(s[..Find(s, '\n')])] + ParseDocument(s[LineLength(s)..])
    ensures Line(s[..Find(s, '\n')]) == [SkipLeading(s[..Find(s, '\n')])]
    ensures var t := SkipLeading(s[..Find(s, '\n')]);
            (Header(Stripped(s)) <==> Header(t)) && (HasKey(Stripped(s), key) <==> HasKey(t, key)) &&
            (Opens(Stripped(s), section) <==> Opens(t, section))
  {
    StrippedShape(s);
    ReadAlike(SkipLeading(s[..Find(s, '\n')]), section, key, 1);
  }

  lemma RewriteAtEnd(key: string, value: Option<string>)
    requires WellFormedKey(key) && GoodRequest("", key, value)
    ensures ParseDocument(RewriteKeys("", key, value)) == Entry(EntryLine(key, value))
    ensures LinesFit(RewriteKeys("", key, value))
  {
    if value.Some? {
      KeyTextParses(key, value.value);
      ParseBlankFirst(KeyText(key, value.value));
    }
  }

  lemma RewriteAtHeader(s: string, key: string, value: Option<string>)
    requires s != "" && Header(Stripped(s)) && GoodRequest("", key, value)
    ensures ParseDocument(RewriteKeys(s, key, value)) == Entry(EntryLine(key, value)) + ParseDocument(s)
    ensures LinesFit(s) ==> LinesFit(RewriteKeys(s, key, value))
  {
    var rest := s[LineLength(s)..];
    CopyKeepsDocument(rest);
    CopyLine(s, CopyRest(rest));
    var tail := Stripped(s) + CopyRest(rest);
    if value.Some? {
      var line := KeyLine(key, value.value);
      KeyTextFits(key, value.value);
      KeyTextParses(key, value.value);
      ParseBlankFirst(tail);
      ParseJoined(line + "\n", "\n" + tail);
      if LinesFit(s) { FitJoined(line + "\n", "\n" + tail); }
    }
  }

  lemma RewriteAtKey(s: string, key: string, value: Option<string>)
    requires s != "" && GoodRequest("", key, value)
    ensures ParseDocument(NewKeyText(key, value) + CopyRest(s[LineLength(s)..]))
            == Entry(EntryLine(key, value)) + ParseDocument(s[LineLength(s)..])
    ensures LinesFit(s) ==> LinesFit(NewKeyText(key, value) + CopyRest(s[LineLength(s)..]))
  {
    var rest := s[LineLength(s)..];
    CopyKeepsDocument(rest);
    if value.Some? {
      KeyTextParses(key, value.value);
      ParseJoined(KeyText(key, value.value), CopyRest(rest));
      if LinesFit(s) { FitJoined(KeyText(key, value.value), CopyRest(rest)); }
    } else {
      assert NewKeyText(key, value) + CopyRest(rest) == CopyRest(rest);
    }
  }

  lemma BlankFirstLine(s: string)
    requires s != "" && Stripped(s) == ""
    ensures ParseDocument(s) == ParseDocument(s[LineLength(s)..])
  {
    StrippedLine(s);
  }

  lemma {:induction false} RewriteKeysIsSetKey(s: string, key: string, value: Option<string>)
    requires GoodRequest("", key, value)
    ensures ParseDocument(RewriteKeys(s, key, value)) == SetKey(ParseDocument(s), key, EntryLine(key, value))
    ensures LinesFit(s) ==> LinesFit(RewriteKeys(s, key, value))
    decreases |s|
  {
    if s == "" {
      RewriteAtEnd(key, value);
    } else if Stripped(s) == "" {
      RewriteKeysIsSetKey(s[LineLength(s)..], key, value);
      BlankFirstLine(s);
      assert !HasKey("", key);
    } else {
      var rest := s[LineLength(s)..];
      HeadAgrees(s, "", key);
      SetKeyStep(SkipLeading(s[..Find(s, '\n')]), ParseDocument(rest), key, EntryLine(key, value));
      if Header(Stripped(s)) {
        RewriteAtHeader(s, key, value);
      } else if HasKey(Stripped(s), key) {
        RewriteAtKey(s, key, value);
      } else {
        RewriteKeysIsSetKey(rest, key, value);
        CopyLine(s, RewriteKeys(rest, key, value));
      }
    }
  }

  lemma NewFileIsUpdate(section: string, key: string, v: string)
    requires GoodRequest(section, key, Some(v))
    ensures ParseDocument(SectionText(section) + KeyText(key, v))
            == Update([], section, key, Some(KeyLine(key, v)))
    ensures LinesFit(SectionText(section) + KeyText(key, v))
  {
    SectionTextParses(section);
    KeyTextParses(key, v);
    hide SectionText, KeyText, ParseDocument, LinesFit, KeyLine;
    ParseJoined(SectionText(section), KeyText(key, v));
    FitJoined(SectionText(section), KeyText(key, v));
  }

  lemma RewriteNewSection(section: string, key: string, value: Option<string>)
    requires section != "" && GoodRequest(section, key, value)
    ensures ParseDocument(RewriteSections("", false, section, key, value))
            == Update([], section, key, EntryLine(key, value))
    ensures LinesFit(RewriteSections("", false, section, key, value))
  {
    if value.Some? {
      NewFileIsUpdate(section, key, value.value);
      ParseBlankFirst(SectionText(section) + KeyText(key, value.value));
    }
  }

  lemma {:induction false} RewriteSectionsIsUpdate(s: string, written: bool, section: string, key: string,
                                                  value: Option<string>)
    requires section != "" && GoodRequest(section, key, value)
    ensures ParseDocument(RewriteSections(s, written, section, key, value))
            == Update(ParseDocument(s), section, key, EntryLine(key, value))
    ensures LinesFit(s) ==> LinesFit(RewriteSections(s, written, section, key, value))
    decreases |s|
  {
    if s == "" {
      RewriteNewSection(section, key, value);
    } else if Stripped(s) == "" {
      BlankFirstLine(s);
      RewriteSectionsIsUpdate(s[LineLength(s)..], written, section, key, value);
    } else {
      var rest := s[LineLength(s)..];
      var sp := Stripped(s);
      HeadAgrees(s, section, key);
      UpdateStep(SkipLeading(s[..Find(s, '\n')]), ParseDocument(rest), section, key, EntryLine(key, value));
      var tail := if Opens(sp, section) then RewriteKeys(rest, key, value)
                  else RewriteSections(rest, true, section, key, value);
      if Opens(sp, section) { RewriteKeysIsSetKey(rest, key, value); }
      else { RewriteSectionsIsUpdate(rest, true, section, key, value); }
      CopyLine(s, tail);
      ParseBlankFirst(sp + tail);
    }
  }

  /** Rewriting a whole file is Update on its document, and lines keep fitting the buffer. */
  lemma RewrittenIsUpdate(s: string, section: string, key: string, value: Option<string>)
    requires GoodRequest(section, key, value)
    ensures ParseDocument(Rewritten(s, section, key, value))
            == Update(ParseDocument(s), section, key, EntryLine(key, value))
    ensures LinesFit(s) ==> LinesFit(Rewritten(s, section, key, value))
  {
    if section == "" { RewriteKeysIsSetKey(s, key, value); }
    else { RewriteSectionsIsUpdate(s, false, section, key, value); }
  }

  // ---------- no value read from a file holds a line feed ----------

  lemma {:induction false} ParsedLinesHaveNoNewline(s: string)
    ensures forall t :: t in ParseDocument(s) ==> '\n' !in t
    decreases |s|
  {
    if s != "" {
      ParsedLinesHaveNoNewline(s[LineLength(s)..]);
      var c := s[..Find(s, '\n')];
      FindFirst(s, '\n');
      SkipLeadingDrops(c, '\n');
    }
  }

  lemma UnescapeOnlyDrops(s: string, room: nat, c: char)
    requires c !in s && c != '"'
    ensures c !in Unescape(s, room)
  {
    if s != "" {
      assert forall d :: d in s[1..] ==> d in s;
      if |s| >= 2 { assert forall d :: d in s[2..] ==> d in s; }
    }
  }

  lemma ValueHasNoNewline(t: string, size: nat)
    requires '\n' !in t && Separator(t) < |t| && size > 0
    ensures '\n' !in BoundValue(t, size)
  {
    var v := SkipLeading(t[Separator(t) + 1..]);
    SkipLeadingDrops(t[Separator(t) + 1..], '\n');
    var u := SkipTrailing(v[..Cut(v, false)]);
    SkipTrailingDrops(v[..Cut(v, false)], '\n');
    var body := if |u| <= 1 then "" else u[1..|u| - 1];
    forall c | c in body ensures c in u {}
    UnescapeOnlyDrops(body, size - 1, '\n');
  }

  lemma {:induction false} FoundHasNoNewline(doc: Document, key: string, size: nat)
    requires forall t :: t in doc ==> '\n' !in t
    requires size > 0
    ensures FindKey(doc, key, size).Some? ==> '\n' !in FindKey(doc, key, size).value
  {
    if doc != [] && !Header(doc[0]) {
      if Binds(doc[0], key) { ValueHasNoNewline(doc[0], size); }
      else { FoundHasNoNewline(doc[1..], key, size); }
    }
  }

  lemma {:induction false} LookupHasNoNewline(doc: Document, section: string, key: string, size: nat)
    requires forall t :: t in doc ==> '\n' !in t
    requires size > 0
    ensures Lookup(doc, section, key, size).Some? ==> '\n' !in Lookup(doc, section, key, size).value
  {
    if section == "" { FoundHasNoNewline(doc, key, size); }
    else if doc == [] {}
    else if Opens(doc[0], section) { FoundHasNoNewline(doc[1..], key, size); }
    else { LookupHasNoNewline(doc[1..], section, key, size); }
  }

  lemma ReadHasNoNewline(file: Option<string>, section: string, key: string, size: nat)
    requires size > 0
    ensures Read(file, section, key, size).Some? ==> '\n' !in Read(file, section, key, size).value
  {
    if file.Some? {
      ParsedLinesHaveNoNewline(file.value);
      LookupHasNoNewline(ParseDocument(file.value), section, key, size);
    }
  }

  // ---------- the lens laws ----------

  /** Reading with a smaller buffer gives a prefix of what a larger one holds. */
  lemma BoundValueClips(t: string, size: nat, size': nat)
    requires Separator(t) < |t| && 0 < size <= size'
    ensures BoundValue(t, size) == Clip(BoundValue(t, size'), size - 1)
  {
    hide Unescape, SkipLeading, SkipTrailing, Cut, Separator;
    var v := SkipLeading(t[Separator(t) + 1..]);
    var u := SkipTrailing(v[..Cut(v, false)]);
    var body := if |u| <= 1 then "" else u[1..|u| - 1];
    UnescapeClips(body, size - 1);
    UnescapeClips(body, size' - 1);
  }

  lemma {:induction false} FindKeyClips(doc: Document, key: string, size: nat, size': nat)
    requires 0 < size <= size'
    ensures FindKey(doc, key, size).Some? <==> FindKey(doc, key, size').Some?
    ensures FindKey(doc, key, size).Some? ==>
              FindKey(doc, key, size).value == Clip(FindKey(doc, key, size').value, size - 1)
  {
    if doc != [] && !Header(doc[0]) {
      if Binds(doc[0], key) { BoundValueClips(doc[0], size, size'); }
      else { FindKeyClips(doc[1..], key, size, size'); }
    }
  }

  lemma {:induction false} LookupClips(doc: Document, section: string, key: string, size: nat, size': nat)
    requires 0 < size <= size'
    ensures Lookup(doc, section, key, size).Some? <==> Lookup(doc, section, key, size').Some?
    ensures Lookup(doc, section, key, size).Some? ==>
              Lookup(doc, section, key, size).value == Clip(Lookup(doc, section, key, size').value, size - 1)
  {
    if section == "" { FindKeyClips(doc, key, size, size'); }
    else if doc == [] {}
    else if Opens(doc[0], section) { FindKeyClips(doc[1..], key, size, size'); }
    else { LookupClips(doc[1..], section, key, size, size'); }
  }

  /**
   PutGet. After a write the value is read back exactly when it is writable, or
   was already what the file said (the branch that leaves the file alone).
   */
  lemma PutGet(file: Option<string>, section: string, key: string, v: string, size: nat)
    requires WellFormedSection(section) && WellFormedKey(key) && Fits(section, key, v) && size > |v|
    ensures Read(Put(file, section, key, Some(v)), section, key, size) == Some(v)
            <==> Writable(v) || Read(file, section, key, BUFFER_SIZE) == Some(v)
  {
    var after := Put(file, section, key, Some(v));
    EncodeGrows(v);
    ReadHasNoNewline(file, section, key, BUFFER_SIZE);
    if Read(file, section, key, BUFFER_SIZE) == Some(v) {
      var doc := ParseDocument(file.value);
      if size <= BUFFER_SIZE { LookupClips(doc, section, key, size, BUFFER_SIZE); }
      else { LookupClips(doc, section, key, BUFFER_SIZE, size); }
    } else if '\n' in v {
      ReadHasNoNewline(after, section, key, size);
    } else {
      var doc := if file == None then [] else ParseDocument(file.value);
      if file == None { NewFileIsUpdate(section, key, v); }
      else { RewrittenIsUpdate(file.value, section, key, Some(v)); }
      assert ParseDocument(after.value) == Update(doc, section, key, Some(KeyLine(key, v)));
      KeyLineParts(key, v);
      UpdateThenLookup(doc, section, key, KeyLine(key, v), size);
      ReadBack(key, v, size);
    }
  }

  lemma EncodeGrows(v: string)
    ensures |Encode(v)| >= |v|
  {
    if Enquoted(v) { EscapedKeepsBlanks(v); }
  }

  /** Frame. A write, or an erasure, leaves every other pair of section and key as it was. */
  lemma PutKeepsOthers(file: Option<string>, section: string, key: string, value: Option<string>,
                       section': string, key': string, size: nat)
    requires GoodRequest(section, key, value) && size > 0
    requires !(SameName(section, section') && SameName(key, key'))
    ensures Read(Put(file, section, key, value), section', key', size) == Read(file, section', key', size)
  {
    var line := EntryLine(key, value);
    if value.Some? { KeyLineParts(key, value.value); }
    if file == None {
      if value.Some? {
        NewFileIsUpdate(section, key, value.value);
        UpdateKeepsOthers([], section, key, line, section', key', size);
      }
    } else if value.Some? && Read(file, section, key, BUFFER_SIZE) == value {
    } else {
      RewrittenIsUpdate(file.value, section, key, value);
      UpdateKeepsOthers(ParseDocument(file.value), section, key, line, section', key', size);
    }
  }

  /** GetPut. Writing back the value just read leaves the file as it is, byte for byte. */
  lemma GetPut(file: Option<string>, section: string, key: string)
    ensures var r := Read(file, section, key, BUFFER_SIZE);
            r.Some? ==> Put(file, section, key, r) == file
  {
  }

  /** PutPut. Writing a writable value twice is writing it once, byte for byte. */
  lemma PutTwice(file: Option<string>, section: string, key: string, v: string)
    requires WellFormedSection(section) && WellFormedKey(key) && Fits(section, key, v) && Writable(v)
    ensures var once := Put(file, section, key, Some(v));
            Put(once, section, key, Some(v)) == once
  {
    EncodeGrows(v);
    PutGet(file, section, key, v, BUFFER_SIZE);
  }

  /** An erased key is gone exactly when the section bound it at most once. */
  lemma EraseGet(file: string, section: string, key: string, size: nat)
    requires WellFormedSection(section) && WellFormedKey(key) && size > 0
    ensures Read(Put(Some(file), section, key, None), section, key, size) == None
            <==> CountIn(ParseDocument(file), section, key) <= 1
  {
    RewrittenIsUpdate(file, section, key, None);
    EraseThenLookup(ParseDocument(file), section, key, size);
  }

  /** The writer keeps every line within the buffer the reader uses. */
  lemma PutKeepsLinesShort(file: Option<string>, section: string, key: string, value: Option<string>)
    requires GoodRequest(section, key, value)
    requires file.Some? ==> LinesFit(file.value)
    ensures var after := Put(file, section, key, value); after.Some? ==> LinesFit(after.value)
  {
    if file == None {
      if value.Some? { NewFileIsUpdate(section, key, value.value); }
    } else {
      RewrittenIsUpdate(file.value, section, key, value);
    }
  }
}
