/**
 How long the lines are that the writer leaves behind. Three of its branches cut an
 entry to the line buffer; the one that puts it before the next header does not.
 */
module IniLines {
  import opened Basics
  import opened IniText
  import opened IniDocument
  import opened IniRewrite

  // ---------- joined texts ----------

  lemma {:induction false} JoinedFits(a: string, b: string)
    requires Terminated(a)
    ensures LinesFit(a + b) <==> LinesFit(a) && LinesFit(b)
    decreases |a|
  {
    if a == "" {
      assert a + b == b;
    } else {
      FirstLine(a, b);
      JoinedFits(a[LineLength(a)..], b);
    }
  }

  lemma LineFits(t: string)
    requires '\n' !in t
    ensures LinesFit(t + "\n") <==> |t| + 2 <= BUFFER_SIZE
    ensures LinesFit(t) <==> t == "" || |t| + 2 <= BUFFER_SIZE
  {
    FindAbsent(t, '\n');
    FindPrefix(t, "\n", '\n');
    assert (t + "\n")[LineLength(t + "\n")..] == "";
    if t != "" { assert t[LineLength(t)..] == ""; }
  }

  lemma BlankLineFits(s: string)
    ensures LinesFit("\n" + s) <==> LinesFit(s)
  {
    assert Find("\n" + s, '\n') == 0 && ("\n" + s)[1..] == s;
  }

  /** A line that is copied fits, so what follows it decides. */
  lemma CopiedLineFits(s: string, tail: string)
    requires s != "" && LinesFit(s) && (s[LineLength(s)..] == "" ==> tail == "" || tail[0] == '\n')
    ensures LinesFit(Stripped(s) + tail) <==> LinesFit(tail)
  {
    StrippedShape(s);
    var sp := Stripped(s);
    var t := SkipLeading(s[..Find(s, '\n')]);
    FindBound(s);
    LineFits(t);
    hide LinesFit, Stripped;
    if sp == t + "\n" {
      JoinedFits(sp, tail);
    } else if tail == "" {
      assert sp + tail == sp;
    } else if tail[0] == '\n' {
      assert tail == "\n" + tail[1..];
      Associate(t, "\n", tail[1..]);
      JoinedFits(t + "\n", tail[1..]);
      BlankLineFits(tail[1..]);
    } else {
      assert sp + tail == tail;
    }
  }

  lemma FindBound(s: string)
    requires s != "" && LinesFit(s)
    ensures |SkipLeading(s[..Find(s, '\n')])| + 2 <= BUFFER_SIZE && LinesFit(s[LineLength(s)..])
  {
  }

  // ---------- cut entries ----------

  lemma StoredHasNoNewline(v: string, maxlen: nat, option: Quote)
    requires '\n' !in v && maxlen > 0 && option != Dequote
    ensures '\n' !in Stored(v, maxlen, option)
  {
    if option == Enquote && maxlen >= 3 { EscapeOnlyAdds(v, maxlen - 3, '\n'); }
  }

  /** What writekey writes fits the buffer, however long key and value are. */
  lemma KeyTextShort(key: string, v: string)
    requires '\n' !in key && '\n' !in v
    ensures LinesFit(KeyText(key, v)) && Terminated(KeyText(key, v)) && KeyText(key, v) != ""
  {
    var k := Clip(key, BUFFER_SIZE - 4);
    var (maxlen, option) := (BUFFER_SIZE - (|k| + 1) - 2, if Enquoted(v) then Enquote else NoQuote);
    var stored := Stored(v, maxlen, option);
    StoredHasNoNewline(v, maxlen, option);
    hide Stored, Enquoted;
    LineFits(k + "=" + stored);
  }

  /** Escaping stops at the last character that fits. */
  lemma {:induction false} EscapeCuts(s: string, room: nat) returns (n: nat)
    ensures n <= |s| && Escape(s, room) == EscapeAll(s[..n]) && |EscapeAll(s[..n])| <= room
    ensures n < |s| ==> |EscapeAll(s[..n + 1])| > room
    decreases |s|
  {
    if s == "" || room == 0 || (s[0] == '"' && room < 2) {
      n := 0;
      assert EscapeAll(s[..0]) == "";
      if s != "" { EscapeFirst(s, 1); }
    } else {
      var w := if s[0] == '"' then 2 else 1;
      var m := EscapeCuts(s[1..], room - w);
      n := m + 1;
      EscapeFirst(s, n);
      if n < |s| { EscapeFirst(s, n + 1); }
    }
  }

  lemma EscapeFirst(s: string, n: nat)
    requires 0 < n <= |s|
    ensures EscapeAll(s[..n]) == (if s[0] == '"' then "\\\"" else [s[0]]) + EscapeAll(s[1..][..n - 1])
  {
    assert s[..n][1..] == s[1..][..n - 1];
  }

  /**
   What becomes of an entry that is too long for writekey: key and plain value are cut
   after 508 and 509 characters of the line; between quotes stands the longest part of
   the value whose escaped text still fits, with its closing quote.
   */
  lemma KeyTextCut(key: string, v: string) returns (n: nat)
    ensures var k := if |key| <= 508 then key else key[..508];
            if ('"' in v || ';' in v || '#' in v || (v != "" && v[|v| - 1] == ' ')) && |k| <= 506 then
              && n <= |v| && KeyText(key, v) == k + "=" + ("\"" + EscapeAll(v[..n]) + "\"") + "\n"
              && |EscapeAll(v[..n])| <= 506 - |k| && (n < |v| ==> |EscapeAll(v[..n + 1])| > 506 - |k|)
            else KeyText(key, v) == (if |k + "=" + v| <= 509 then k + "=" + v else (k + "=" + v)[..509]) + "\n"
  {
    var k := Clip(key, BUFFER_SIZE - 4);
    n := 0;
    if Enquoted(v) && |k| <= 506 {
      n := EscapeCuts(v, 506 - |k|);
    }
  }

  /** A section name is cut after 507 characters. */
  lemma SectionTextCut(section: string)
    ensures SectionText(section)
            == if section == "" then ""
               else "[" + (if |section| <= 507 then section else section[..507]) + "]\n"
  {
  }

  lemma SectionTextShort(section: string)
    requires '\n' !in section
    ensures LinesFit(SectionText(section)) && Terminated(SectionText(section))
  {
    if section != "" {
      var name := "[" + Clip(section, BUFFER_SIZE - 5) + "]";
      assert SectionText(section) == name + "\n";
      LineFits(name);
    }
  }

  lemma {:induction false} CopyRestFits(s: string)
    requires LinesFit(s)
    ensures LinesFit(CopyRest(s))
    decreases |s|
  {
    CopyKeepsDocument(s);
  }

  // ---------- the branch that does not cut ----------

  /** In the section's lines a header comes before any line that holds the key. */
  predicate HeaderFirst(s: string, key: string)
    decreases |s|
  {
    s != "" &&
    var sp := Stripped(s);
    Header(sp) || (!HasKey(sp, key) && HeaderFirst(s[LineLength(s)..], key))
  }

  /** The entry goes in front of the header behind its section. */
  predicate BeforeHeader(s: string, section: string, key: string)
    decreases |s|
  {
    if section == "" then HeaderFirst(s, key)
    else
      s != "" &&
      var rest := s[LineLength(s)..];
      if Opens(Stripped(s), section) then HeaderFirst(rest, key) else BeforeHeader(rest, section, key)
  }

  /** The line that write_quoted completes fits the buffer. */
  predicate UncutFits(key: string, value: Option<string>) {
    value.Some? ==> |key| + 1 + |Encode(value.value)| + 2 <= BUFFER_SIZE
  }

  predicate OneLine(key: string, value: Option<string>) {
    '\n' !in key && (value.Some? ==> '\n' !in value.value)
  }

  lemma UncutLine(key: string, v: string, tail: string)
    requires '\n' !in key && '\n' !in v && LinesFit(tail)
    ensures LinesFit((KeyLine(key, v) + "\n") + ("\n" + tail)) <==> UncutFits(key, Some(v))
  {
    if Enquoted(v) { EscapeOnlyAdds(v, EscapedLength(v), '\n'); }
    var line := KeyLine(key, v);
    assert '\n' !in line && |line| == |key| + 1 + |Encode(v)|;
    hide LinesFit, Encode, KeyLine;
    LineFits(line);
    BlankLineFits(tail);
    JoinedFits(line + "\n", "\n" + tail);
  }

  lemma AtHeaderFits(s: string, key: string, value: Option<string>)
    requires s != "" && Header(Stripped(s)) && LinesFit(s) && OneLine(key, value)
    ensures LinesFit(RewriteKeys(s, key, value)) <==> UncutFits(key, value)
  {
    var rest := s[LineLength(s)..];
    FindBound(s);
    CopyRestFits(rest);
    var tail := Stripped(s) + CopyRest(rest);
    CopiedLineFits(s, CopyRest(rest));
    if value.Some? { UncutLine(key, value.value, tail); }
  }

  lemma AtKeyFits(s: string, key: string, value: Option<string>)
    requires s != "" && LinesFit(s) && OneLine(key, value)
    ensures LinesFit(NewKeyText(key, value) + CopyRest(s[LineLength(s)..]))
  {
    var rest := s[LineLength(s)..];
    FindBound(s);
    CopyRestFits(rest);
    if value.Some? {
      KeyTextShort(key, value.value);
      JoinedFits(KeyText(key, value.value), CopyRest(rest));
    } else {
      assert "" + CopyRest(rest) == CopyRest(rest);
    }
  }

  lemma AtEndFits(key: string, value: Option<string>)
    requires OneLine(key, value)
    ensures LinesFit(RewriteKeys("", key, value))
    ensures RewriteKeys("", key, value) == "" || RewriteKeys("", key, value)[0] == '\n'
  {
    if value.Some? {
      KeyTextShort(key, value.value);
      BlankLineFits(KeyText(key, value.value));
    }
  }

  lemma {:induction false} KeysFitExactly(s: string, key: string, value: Option<string>)
    requires LinesFit(s) && OneLine(key, value)
    ensures LinesFit(RewriteKeys(s, key, value)) <==> (HeaderFirst(s, key) ==> UncutFits(key, value))
    decreases |s|
  {
    AtEndFits(key, value);
    if s != "" {
      FindBound(s);
      var (sp, rest) := (Stripped(s), s[LineLength(s)..]);
      if Header(sp) {
        AtHeaderFits(s, key, value);
      } else if HasKey(sp, key) {
        AtKeyFits(s, key, value);
      } else {
        KeysFitExactly(rest, key, value);
        CopiedLineFits(s, RewriteKeys(rest, key, value));
      }
    }
  }

  lemma NewSectionFits(section: string, key: string, value: Option<string>, written: bool)
    requires OneLine(key, value) && '\n' !in section
    ensures var t := RewriteSections("", written, section, key, value); LinesFit(t) && (t == "" || t[0] == '\n')
  {
    if value.Some? {
      SectionTextShort(section);
      KeyTextShort(key, value.value);
      JoinedFits(SectionText(section), KeyText(key, value.value));
      BlankLineFits(SectionText(section) + KeyText(key, value.value));
    }
  }

  lemma {:induction false} SectionsFitExactly(s: string, written: bool, section: string, key: string,
    value: Option<string>)
    requires section != "" && '\n' !in section && LinesFit(s) && OneLine(key, value)
    ensures LinesFit(RewriteSections(s, written, section, key, value))
            <==> (BeforeHeader(s, section, key) ==> UncutFits(key, value))
    decreases |s|
  {
    NewSectionFits(section, key, value, true);
    NewSectionFits(section, key, value, written);
    AtEndFits(key, value);
    if s != "" {
      FindBound(s);
      var (sp, rest) := (Stripped(s), s[LineLength(s)..]);
      var tail := if Opens(sp, section) then RewriteKeys(rest, key, value)
                  else RewriteSections(rest, written || sp != "", section, key, value);
      if Opens(sp, section) {
        KeysFitExactly(rest, key, value);
      } else {
        SectionsFitExactly(rest, written || sp != "", section, key, value);
      }
      NewSectionFits(section, key, value, written || sp != "");
      CopiedLineFits(s, tail);
      BlankLineFits(sp + tail);
    }
  }

  /**
   Whatever is put into a file whose lines fit the reader's buffer, they fit again
   exactly when the entry is not put before a header, or is short enough there, or
   the file already says it.
   */
  lemma PutFitsExactly(file: Option<string>, section: string, key: string, value: Option<string>)
    requires file.Some? ==> LinesFit(file.value)
    requires OneLine(key, value) && '\n' !in section
    ensures var after := Put(file, section, key, value);
            (after.Some? ==> LinesFit(after.value)) <==>
            (file.Some? && BeforeHeader(file.value, section, key) ==>
               UncutFits(key, value) || Read(file, section, key, BUFFER_SIZE) == value)
  {
    if file == None {
      if value.Some? {
        SectionTextShort(section);
        KeyTextShort(key, value.value);
        JoinedFits(SectionText(section), KeyText(key, value.value));
      }
    } else if section == "" {
      KeysFitExactly(file.value, key, value);
    } else {
      SectionsFitExactly(file.value, false, section, key, value);
    }
  }

  /** A value of 509 characters put before the header of a later section leaves a line the reader cannot hold. */
  lemma LongEntryOverflows(v: string)
    requires |v| == 509 && forall i :: 0 <= i < |v| ==> v[i] == 'x'
    ensures LinesFit("[s]\n") && !LinesFit(Put(Some("[s]\n"), "", "k", Some(v)).value)
  {
    var file := "[s]\n";
    assert LineLength(file) == 4 && Stripped(file) == "[s]\n" && Header("[s]\n");
    LineFits("[s]");
    assert "[s]" + "\n" == file;
    assert !Enquoted(v) && Encode(v) == v;
    assert file[..3] == "[s]" && file[4..] == "";
    assert ParseDocument(file) == Line("[s]") + ParseDocument("");
    assert SkipLeading("[s]") == "[s]" && ParseDocument(file) == ["[s]"];
    assert Read(Some(file), "", "k", BUFFER_SIZE) == None;
    hide LinesFit, ParseDocument, Put, Read;
    assert BeforeHeader(file, "", "k");
    PutFitsExactly(Some(file), "", "k", Some(v));
  }
}
