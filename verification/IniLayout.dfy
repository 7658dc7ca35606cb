/**
 How a rewritten file looks: every line of the document on a line of its own without
 leading blanks, no blank lines but one before each header, and the new entry where
 the document has it. An entry that is appended at the end has a blank line before it.
 */
module IniLayout {
  import opened Basics
  import opened IniText
  import opened IniDocument
  import opened IniRewrite

  /** The text of one line in front of further text; a header may have a blank line before it. */
  function Laid(t: string, blank: bool, text: string): string {
    (if t != "" && t[0] == '[' && blank then "\n" else "") + (t + "\n") + text
  }

  /** A document laid out; before a header comes a blank line, unless it is the first line of the file. */
  function Neat(doc: Document, written: bool): string {
    if doc == [] then "" else Laid(doc[0], written, Neat(doc[1..], true))
  }

  /** Where an entry goes. */
  datatype Place = AtKey | BeforeHeader | AtEnd | NoSection

  function PlaceIn(doc: Document, key: string): Place {
    if doc == [] then AtEnd
    else if Header(doc[0]) then BeforeHeader
    else if HasKey(doc[0], key) then AtKey
    else PlaceIn(doc[1..], key)
  }

  function PlaceOf(doc: Document, section: string, key: string): Place {
    if section == "" then PlaceIn(doc, key)
    else if doc == [] then NoSection
    else if Opens(doc[0], section) then PlaceIn(doc[1..], key)
    else PlaceOf(doc[1..], section, key)
  }

  lemma NeatStep(t: string, rest: Document, written: bool)
    ensures Neat([t] + rest, written) == Laid(t, written, Neat(rest, true))
  {
    assert ([t] + rest)[1..] == rest;
  }

  lemma PlaceStep(t: string, rest: Document, section: string, key: string)
    ensures PlaceIn([t] + rest, key)
            == if Header(t) then BeforeHeader else if HasKey(t, key) then AtKey else PlaceIn(rest, key)
    ensures section != "" ==>
              PlaceOf([t] + rest, section, key)
              == if Opens(t, section) then PlaceIn(rest, key) else PlaceOf(rest, section, key)
  {
    assert ([t] + rest)[1..] == rest;
  }

  /** The first line of a file whose lines are all terminated. */
  lemma FirstWhole(s: string, section: string, key: string)
    requires s != "" && Terminated(s) && '\n' !in section
    ensures Terminated(s[LineLength(s)..])
    ensures Stripped(s) == "" ==> ParseDocument(s) == ParseDocument(s[LineLength(s)..])
    ensures Stripped(s) != "" ==>
              var t := SkipLeading(s[..Find(s, '\n')]);
              Stripped(s) == t + "\n" && ParseDocument(s) == [t] + ParseDocument(s[LineLength(s)..]) &&
              (Header(Stripped(s)) <==> Header(t)) && (HasKey(Stripped(s), key) <==> HasKey(t, key)) &&
              (Opens(Stripped(s), section) <==> Opens(t, section))
  {
    FirstLine(s, "");
    StrippedShape(s);
    if Stripped(s) == "" { BlankFirstLine(s); } else { HeadAgrees(s, section, key); }
  }

  lemma LaidLine(t: string, blank: bool, text: string)
    ensures Laid(t, blank, text)
            == if Header(t) && blank then "\n" + ((t + "\n") + text) else (t + "\n") + text
  {
  }

  lemma LaidMore(t: string, blank: bool, text: string, more: string)
    ensures Laid(t, blank, text) + more == Laid(t, blank, text + more)
  {
    Associate((if t != "" && t[0] == '[' && blank then "\n" else "") + (t + "\n"), text, more);
  }

  lemma CopyStep(s: string)
    requires s != "" && Terminated(s)
    ensures var (t, rest) := (SkipLeading(s[..Find(s, '\n')]), s[LineLength(s)..]);
            CopyRest(s) == if Stripped(s) == "" then CopyRest(rest) else Laid(t, true, CopyRest(rest))
  {
    FirstWhole(s, "", "");
    var (t, rest) := (SkipLeading(s[..Find(s, '\n')]), s[LineLength(s)..]);
    LaidLine(t, true, CopyRest(rest));
    hide Stripped, ParseDocument, Laid;
  }

  /** The lines behind the change. */
  lemma {:induction false} CopyIsNeat(s: string)
    requires Terminated(s)
    ensures CopyRest(s) == Neat(ParseDocument(s), true)
    decreases |s|
  {
    if s == "" {
      assert ParseDocument(s) == [];
    } else {
      hide CopyRest, Neat, ParseDocument, Stripped, Laid;
      FirstWhole(s, "", "");
      CopyStep(s);
      CopyIsNeat(s[LineLength(s)..]);
      NeatStep(SkipLeading(s[..Find(s, '\n')]), ParseDocument(s[LineLength(s)..]), true);
    }
  }

  /** What is appended at the end of a file for an entry that has no place in it. */
  function Appended(section: string, key: string, v: string): string {
    "\n" + ((if section == "" then "" else "[" + section + "]\n") + (KeyLine(key, v) + "\n"))
  }

  function Tail(section: string, key: string, value: Option<string>): string {
    if value.Some? then Appended(section, key, value.value) else ""
  }

  lemma KeysStep(s: string, key: string, value: Option<string>)
    requires s != "" && Terminated(s) && GoodRequest("", key, value)
    ensures var (t, rest) := (SkipLeading(s[..Find(s, '\n')]), s[LineLength(s)..]);
            RewriteKeys(s, key, value)
            == if Stripped(s) == "" then RewriteKeys(rest, key, value)
               else if Header(t) then
                 if value.Some? then Laid(KeyLine(key, value.value), true, Laid(t, true, CopyRest(rest)))
                 else Laid(t, false, CopyRest(rest))
               else if HasKey(t, key) then
                 if value.Some? then Laid(KeyLine(key, value.value), true, CopyRest(rest)) else CopyRest(rest)
               else Laid(t, true, RewriteKeys(rest, key, value))
  {
    FirstWhole(s, "", key);
    var (t, rest) := (SkipLeading(s[..Find(s, '\n')]), s[LineLength(s)..]);
    if value.Some? { KeyTextFits(key, value.value); KeyLineParts(key, value.value); }
    LaidLine(t, true, CopyRest(rest));
    LaidLine(t, false, CopyRest(rest));
    LaidLine(t, true, RewriteKeys(rest, key, value));
    if value.Some? {
      LaidLine(KeyLine(key, value.value), true, CopyRest(rest));
      LaidLine(KeyLine(key, value.value), true, Laid(t, true, CopyRest(rest)));
    }
    assert !HasKey("", key);
    assert "" + CopyRest(rest) == CopyRest(rest);
    hide ParseDocument, Laid, KeyLine, KeyText, CopyRest, HasKey, SkipLeading, Find, LineLength;
  }

  lemma KeysAtEnd(key: string, value: Option<string>)
    requires GoodRequest("", key, value)
    ensures ParseDocument("") == [] && PlaceIn([], key) == AtEnd
    ensures RewriteKeys("", key, value) == Neat([], true) + Tail("", key, value)
  {
    if value.Some? { KeyTextFits(key, value.value); }
    hide KeyText, KeyLine, GoodRequest;
  }

  lemma SectionsAtEnd(written: bool, section: string, key: string, value: Option<string>)
    requires section != "" && GoodRequest(section, key, value)
    ensures ParseDocument("") == [] && PlaceOf([], section, key) == NoSection
    ensures RewriteSections("", written, section, key, value) == Neat([], written) + Tail(section, key, value)
  {
    if value.Some? { NewSection(section, key, value.value); }
  }

  lemma SetKeyLaid(t: string, doc: Document, key: string, value: Option<string>)
    requires WellFormedKey(key)
    ensures var text := Neat(SetKey([t] + doc, key, EntryLine(key, value)), true);
            if Header(t) then
              value.Some? ==> text == Laid(KeyLine(key, value.value), true, Laid(t, true, Neat(doc, true)))
            else if HasKey(t, key) then
              text == if value.Some? then Laid(KeyLine(key, value.value), true, Neat(doc, true)) else Neat(doc, true)
            else text == Laid(t, true, Neat(SetKey(doc, key, EntryLine(key, value)), true))
  {
    hide SetKey, Neat, Laid, HasKey, KeyLine;
    SetKeyStep(t, doc, key, EntryLine(key, value));
    NeatStep(t, doc, true);
    NeatStep(t, SetKey(doc, key, EntryLine(key, value)), true);
    if value.Some? {
      NeatStep(KeyLine(key, value.value), doc, true);
      NeatStep(KeyLine(key, value.value), [t] + doc, true);
    } else {
      assert Entry(None) + doc == doc;
    }
  }

  /** The lines of the section, the new entry among them, and all that follows. */
  lemma {:induction false} KeysLaidOut(s: string, key: string, value: Option<string>)
    requires Terminated(s) && GoodRequest("", key, value)
    ensures var (doc, text) := (ParseDocument(s), RewriteKeys(s, key, value));
            match PlaceIn(doc, key)
            case AtKey => text == Neat(SetKey(doc, key, EntryLine(key, value)), true)
            case BeforeHeader => value.Some? ==> text == Neat(SetKey(doc, key, EntryLine(key, value)), true)
            case _ => text == Neat(doc, true) + Tail("", key, value)
    decreases |s|
  {
    hide RewriteKeys, Neat, ParseDocument, Stripped, SetKey, PlaceIn, HasKey, KeyLine, CopyRest, Laid, Tail;
    if s == "" {
      KeysAtEnd(key, value);
    } else {
      FirstWhole(s, "", key);
      KeysStep(s, key, value);
      var rest := s[LineLength(s)..];
      if Stripped(s) == "" {
        KeysLaidOut(rest, key, value);
      } else {
        var (t, doc) := (SkipLeading(s[..Find(s, '\n')]), ParseDocument(rest));
        PlaceStep(t, doc, "", key);
        CopyIsNeat(rest);
        NeatStep(t, doc, true);
        SetKeyLaid(t, doc, key, value);
        if !Header(t) && !HasKey(t, key) {
          KeysLaidOut(rest, key, value);
          LaidMore(t, true, Neat(doc, true), Tail("", key, value));
        }
      }
    }
  }

  lemma SectionsStep(s: string, written: bool, section: string, key: string, value: Option<string>)
    requires s != "" && Terminated(s) && '\n' !in section
    ensures var (t, rest) := (SkipLeading(s[..Find(s, '\n')]), s[LineLength(s)..]);
            RewriteSections(s, written, section, key, value)
            == if Stripped(s) == "" then RewriteSections(rest, written, section, key, value)
               else if Opens(t, section) then Laid(t, written, RewriteKeys(rest, key, value))
               else Laid(t, written, RewriteSections(rest, true, section, key, value))
  {
    FirstWhole(s, section, key);
    var (t, rest) := (SkipLeading(s[..Find(s, '\n')]), s[LineLength(s)..]);
    LaidLine(t, written, RewriteKeys(rest, key, value));
    LaidLine(t, written, RewriteSections(rest, true, section, key, value));
    assert !Opens("", section);
    hide ParseDocument, Laid, RewriteKeys, SkipLeading, Find, LineLength, Opens;
  }

  lemma GoodKey(section: string, key: string, value: Option<string>)
    requires GoodRequest(section, key, value)
    ensures '\n' !in section && GoodRequest("", key, value)
  {
  }

  lemma UpdateLaid(t: string, doc: Document, written: bool, section: string, key: string, line: Option<string>)
    requires section != ""
    ensures Neat(Update([t] + doc, section, key, line), written)
            == Laid(t, written, Neat(if Opens(t, section) then SetKey(doc, key, line)
                                     else Update(doc, section, key, line), true))
  {
    hide SetKey, Update, Neat, Laid, Opens;
    UpdateStep(t, doc, section, key, line);
    NeatStep(t, SetKey(doc, key, line), written);
    NeatStep(t, Update(doc, section, key, line), written);
  }

  lemma {:induction false} SectionsLaidOut(s: string, written: bool, section: string, key: string,
                                          value: Option<string>)
    requires Terminated(s) && section != "" && GoodRequest(section, key, value)
    ensures var (doc, text) := (ParseDocument(s), RewriteSections(s, written, section, key, value));
            match PlaceOf(doc, section, key)
            case AtKey => text == Neat(Update(doc, section, key, EntryLine(key, value)), written)
            case BeforeHeader =>
              value.Some? ==> text == Neat(Update(doc, section, key, EntryLine(key, value)), written)
            case AtEnd => text == Neat(doc, written) + Tail("", key, value)
            case NoSection => text == Neat(doc, written) + Tail(section, key, value)
    decreases |s|
  {
    hide RewriteSections, RewriteKeys, Neat, ParseDocument, Stripped, SetKey, Update, PlaceIn, PlaceOf, Opens;
    hide KeyLine, Laid, Tail, GoodRequest, Terminated;
    GoodKey(section, key, value);
    if s == "" {
      SectionsAtEnd(written, section, key, value);
    } else {
      FirstWhole(s, section, key);
      SectionsStep(s, written, section, key, value);
      var rest := s[LineLength(s)..];
      if Stripped(s) == "" {
        SectionsLaidOut(rest, written, section, key, value);
      } else {
        var (t, doc, line) := (SkipLeading(s[..Find(s, '\n')]), ParseDocument(rest), EntryLine(key, value));
        PlaceStep(t, doc, section, key);
        UpdateLaid(t, doc, written, section, key, line);
        NeatStep(t, doc, written);
        LaidMore(t, written, Neat(doc, true), Tail("", key, value));
        if Opens(t, section) {
          KeysLaidOut(rest, key, value);
          PlaceInSection(doc, key);
        } else {
          SectionsLaidOut(rest, true, section, key, value);
          LaidMore(t, written, Neat(doc, true), Tail(section, key, value));
        }
      }
    }
  }

  lemma NewSection(section: string, key: string, v: string)
    requires section != "" && GoodRequest(section, key, Some(v))
    ensures SectionText(section) == "[" + section + "]\n" && KeyText(key, v) == KeyLine(key, v) + "\n"
  {
    KeyTextFits(key, v);
  }

  /**
   The whole file after a rewrite that sets a value, in terms of the lines it had: laid
   out with the entry in its place, or followed by a blank line and what is new.
   */
  lemma RewrittenLaidOut(s: string, section: string, key: string, v: string)
    requires Terminated(s) && GoodRequest(section, key, Some(v))
    ensures var doc := ParseDocument(s);
            Rewritten(s, section, key, Some(v))
            == match PlaceOf(doc, section, key)
               case AtKey => Neat(Update(doc, section, key, Some(KeyLine(key, v))), section == "")
               case BeforeHeader => Neat(Update(doc, section, key, Some(KeyLine(key, v))), section == "")
               case AtEnd => Neat(doc, section == "") + Appended("", key, v)
               case NoSection => Neat(doc, false) + Appended(section, key, v)
  {
    hide RewriteSections, RewriteKeys, Neat, ParseDocument, SetKey, PlaceIn, Appended, KeyLine;
    if section == "" { KeysLaidOut(s, key, Some(v)); PlaceInSection(ParseDocument(s), key); }
    else { SectionsLaidOut(s, false, section, key, Some(v)); }
  }

  lemma PlaceInSection(doc: Document, key: string)
    ensures PlaceIn(doc, key) != NoSection
  {
  }
}
