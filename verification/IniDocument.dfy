/**
 What an INI file means. A document is the list of its non-blank lines, leading
 blanks and line feeds removed. Lookup and Update are the reader and the writer
 as operations on such a list; the text-level writer is related to them in
 IniRewrite, and the imperative code in MinIni.
 */
module IniDocument {
  import opened Basics
  import opened IniText

  type Document = seq<string>

  // ---------- lines ----------

  /** Any line beginning with a bracket ends the keys of the section before it. */
  predicate Header(t: string) {
    t != "" && t[0] == '['
  }

  /** A header that opens the named section. */
  predicate Opens(t: string, section: string) {
    Header(t) &&
    var e := Find(t, ']');
    e < |t| && e - 1 == |section| && SameName(t[1..e], section)
  }

  /** Position of the separator: the first '=', or the first ':' when there is no '='. */
  function Separator(t: string): (n: nat)
    ensures n <= |t|
  {
    var e := Find(t, '=');
    if e < |t| then e else Find(t, ':')
  }

  predicate HasKey(t: string, key: string) {
    var e := Separator(t);
    e < |t| && SameName(SkipTrailing(t[..e]), key)
  }

  predicate Remark(t: string) {
    t != "" && (t[0] == ';' || t[0] == '#')
  }

  /** The reader's test for "this line holds the key". */
  predicate Binds(t: string, key: string) {
    !Remark(t) && HasKey(t, key)
  }

  /** The value denoted by the text behind the separator, leading blanks removed. */
  function Decode(v: string, size: nat): (r: string)
    requires size > 0
    ensures |r| < size
  {
    var u := SkipTrailing(v[..Cut(v, false)]);
    if u != "" && u[0] == '"' && u[|u| - 1] == '"' then
      Stored(if |u| == 1 then "" else u[1..|u| - 1], size, Dequote)
    else Stored(u, size, NoQuote)
  }

  function BoundValue(t: string, size: nat): (r: string)
    requires Separator(t) < |t| && size > 0
    ensures |r| < size
  {
    Decode(SkipLeading(t[Separator(t) + 1..]), size)
  }

  // ---------- reading ----------

  function FindKey(doc: Document, key: string, size: nat): (r: Option<string>)
    requires size > 0
    ensures r.Some? ==> |r.value| < size
  {
    if doc == [] || Header(doc[0]) then None
    else if Binds(doc[0], key) then Some(BoundValue(doc[0], size))
    else FindKey(doc[1..], key, size)
  }

  /** The value of a key, or None; the empty section name denotes the keys above the first header. */
  function Lookup(doc: Document, section: string, key: string, size: nat): (r: Option<string>)
    requires size > 0
    ensures r.Some? ==> |r.value| < size
  {
    if section == "" then FindKey(doc, key, size)
    else if doc == [] then None
    else if Opens(doc[0], section) then FindKey(doc[1..], key, size)
    else Lookup(doc[1..], section, key, size)
  }

  // ---------- writing ----------

  function Entry(line: Option<string>): (d: Document) {
    if line.Some? then [line.value] else []
  }

  /** Replace the first line holding the key, or add one where the section ends; None erases. */
  function SetKey(doc: Document, key: string, line: Option<string>): Document {
    if doc == [] then Entry(line)
    else if Header(doc[0]) then Entry(line) + doc
    else if HasKey(doc[0], key) then Entry(line) + doc[1..]
    else [doc[0]] + SetKey(doc[1..], key, line)
  }

  function Update(doc: Document, section: string, key: string, line: Option<string>): Document {
    if section == "" then SetKey(doc, key, line)
    else if doc == [] then
      if line.Some? then ["[" + section + "]", line.value] else []
    else if Opens(doc[0], section) then [doc[0]] + SetKey(doc[1..], key, line)
    else [doc[0]] + Update(doc[1..], section, key, line)
  }

  lemma SetKeyStep(head: string, rest: Document, key: string, line: Option<string>)
    ensures SetKey([head] + rest, key, line)
            == if Header(head) then Entry(line) + ([head] + rest)
               else if HasKey(head, key) then Entry(line) + rest
               else [head] + SetKey(rest, key, line)
  {
    assert ([head] + rest)[1..] == rest;
  }

  lemma UpdateStep(head: string, rest: Document, section: string, key: string, line: Option<string>)
    requires section != ""
    ensures Update([head] + rest, section, key, line)
            == if Opens(head, section) then [head] + SetKey(rest, key, line)
               else [head] + Update(rest, section, key, line)
  {
    assert ([head] + rest)[1..] == rest;
  }

  // ---------- what callers may pass ----------

  predicate EdgeFree(s: string) {
    s != "" ==> !IsBlank(s[0]) && !IsBlank(s[|s| - 1])
  }

  predicate WellFormedKey(key: string) {
    EdgeFree(key) && '=' !in key && '\n' !in key && !Header(key) && !Remark(key)
  }

  predicate WellFormedSection(section: string) {
    ']' !in section && '\n' !in section
  }

  /** check_enquote: the values the writer puts between double quotes. */
  predicate Enquoted(v: string) {
    '"' in v || ';' in v || '#' in v || (v != "" && v[|v| - 1] == ' ')
  }

  /** The text the writer puts behind the separator when there is room for it. */
  function Encode(v: string): string {
    if Enquoted(v) then "\"" + EscapeAll(v) + "\"" else v
  }

  /** The values that survive a write followed by a read. */
  predicate Writable(v: string) {
    '\n' !in v && (Enquoted(v) || EdgeFree(v))
  }

  /** Between quotes go values with a quote, a comment character or a space at the end; others need clean edges. */
  lemma WritableExactly(v: string)
    ensures Writable(v) <==>
            '\n' !in v &&
            (v == "" || (v[0] > ' ' && v[|v| - 1] > ' ') || '"' in v || ';' in v || '#' in v || v[|v| - 1] == ' ')
  {
  }

  function KeyLine(key: string, v: string): string {
    key + "=" + Encode(v)
  }

  // ---------- names ----------

  lemma SameNameTransitive(a: string, b: string, c: string)
    requires SameName(a, b) && SameName(b, c)
    ensures SameName(a, c)
  {
    forall i | 0 <= i < |a| ensures Fold(a[i]) == Fold(c[i]) {
      assert Fold(a[i]) == Fold(b[i]);
    }
  }

  lemma SameNameSymmetric(a: string, b: string)
    requires SameName(a, b)
    ensures SameName(b, a)
  {
  }

  /** Two names the same line answers to are the same name. */
  lemma OneKeyPerLine(t: string, key: string, key': string)
    requires HasKey(t, key) && HasKey(t, key')
    ensures SameName(key, key')
  {
    var k := SkipTrailing(t[..Separator(t)]);
    SameNameSymmetric(k, key);
    SameNameTransitive(key, k, key');
  }

  lemma OneNamePerHeader(t: string, section: string, section': string)
    requires Opens(t, section) && Opens(t, section')
    ensures SameName(section, section')
  {
    var s := t[1..Find(t, ']')];
    SameNameSymmetric(s, section);
    SameNameTransitive(section, s, section');
  }

  // ---------- the written lines ----------

  lemma KeyLineSplit(key: string, v: string)
    requires WellFormedKey(key)
    ensures var t := KeyLine(key, v);
            Separator(t) == |key| && t[|key| + 1..] == Encode(v) && t[..|key|] == key && |key| < |t|
  {
    hide Encode;
    var tail := "=" + Encode(v);
    assert KeyLine(key, v) == key + tail;
    FindPrefix(key, tail, '=');
  }

  /** The line written for a key is a plain line that answers to that key and to no other. */
  lemma KeyLineParts(key: string, v: string)
    requires WellFormedKey(key)
    ensures var t := KeyLine(key, v);
            Separator(t) == |key| && t[|key| + 1..] == Encode(v) && SkipTrailing(t[..|key|]) == key
    ensures !Header(KeyLine(key, v)) && !Remark(KeyLine(key, v)) && SkipLeading(KeyLine(key, v)) == KeyLine(key, v)
    ensures forall key' :: HasKey(KeyLine(key, v), key') <==> SameName(key, key')
  {
    KeyLineSplit(key, v);
    hide Encode, Separator, SkipTrailing;
    var t := KeyLine(key, v);
    SkipTrailingIs(key, |key|);
    assert key[..|key|] == key;
    assert t[0] == if key == "" then '=' else key[0];
  }

  lemma HeaderLineParts(section: string)
    requires WellFormedSection(section)
    ensures Header("[" + section + "]") && SkipLeading("[" + section + "]") == "[" + section + "]"
    ensures forall section' :: Opens("[" + section + "]", section') <==> SameName(section, section')
  {
    var t := "[" + section + "]";
    assert t == ("[" + section) + "]";
    FindPrefix("[" + section, "]", ']');
    assert Find("]", ']') == 0;
    assert t[1..|section| + 1] == section;
  }

  lemma EscapedKeepsBlanks(v: string)
    requires Enquoted(v)
    ensures |EscapeAll(v)| == EscapedLength(v) >= |v| > 0
  {
    EscapeRoomy(v, EscapedLength(v));
  }

  /** Reading between two quotes, with no comment cut in front of the second one. */
  lemma DecodeBetweenQuotes(e: string, size: nat)
    requires size > 0 && Cut("\"" + e + "\"", false) == |e| + 2
    ensures Decode("\"" + e + "\"", size) == Unescape(e, size - 1)
  {
    hide Cut, SkipTrailing, Unescape;
    var q := "\"" + e + "\"";
    assert q[..|q|] == q;
    SkipTrailingIs(q, |q|);
    assert q[1..|q| - 1] == e;
  }

  /** A quoted value reads back exactly, whatever it contains. */
  lemma DecodeQuoted(v: string, size: nat)
    requires Enquoted(v) && size > 0
    ensures Decode(SkipLeading(Encode(v)), size) == Clip(v, size - 1)
  {
    hide Decode, Cut, Escape, Unescape, EscapedLength, SkipLeading, Clip;
    var e := EscapeAll(v);
    var q := "\"" + e + "\"";
    EscapedKeepsBlanks(v);
    CutQuoted(v, EscapedLength(v), "");
    assert q + "" == q;
    SkipLeadingIs(q, 0);
    DecodeBetweenQuotes(e, size);
    EscapeRoomy(v, EscapedLength(v));
    QuotingRoundTrip(v, EscapedLength(v), |e|);
    UnescapeClips(e, size - 1);
  }

  lemma DecodePlain(v: string, size: nat)
    requires !Enquoted(v) && EdgeFree(v) && size > 0
    ensures Decode(SkipLeading(Encode(v)), size) == Clip(v, size - 1)
  {
    CutPlain(v);
    assert v[..|v|] == v;
    SkipTrailingIs(v, |v|);
  }

  /** A value with blanks at an edge that the writer does not quote comes back without them. */
  lemma DecodeEdged(v: string, size: nat)
    requires !Enquoted(v) && !EdgeFree(v) && size > |v|
    ensures Decode(SkipLeading(Encode(v)), size) != v
  {
    var w := SkipLeading(v);
    SkipLeadingDrops(v, ';');
    SkipLeadingDrops(v, '#');
    SkipLeadingDrops(v, '"');
    SkipLeadingShape(v);
    CutPlain(w);
    assert w[..|w|] == w;
    assert |SkipTrailing(w)| == |v| ==> |w| == |v| && w == v;
  }

  /** Exactly the writable values are read back from the line written for them. */
  lemma ReadBack(key: string, v: string, size: nat)
    requires WellFormedKey(key) && size > |v| && '\n' !in v
    ensures Separator(KeyLine(key, v)) < |KeyLine(key, v)|
    ensures BoundValue(KeyLine(key, v), size) == v <==> Writable(v)
  {
    KeyLineParts(key, v);
    if Enquoted(v) { DecodeQuoted(v, size); }
    else if EdgeFree(v) { DecodePlain(v, size); }
    else { DecodeEdged(v, size); }
  }

  // ---------- lens laws on documents ----------

  lemma {:induction false} SetThenFind(doc: Document, key: string, line: string, size: nat)
    requires size > 0
    requires !Header(line) && Binds(line, key) && !Remark(key)
    ensures FindKey(SetKey(doc, key, Some(line)), key, size) == Some(BoundValue(line, size))
  {
    var d := SetKey(doc, key, Some(line));
    if doc == [] || Header(doc[0]) || HasKey(doc[0], key) {
      assert d[0] == line;
    } else {
      assert d[1..] == SetKey(doc[1..], key, Some(line));
      SetThenFind(doc[1..], key, line, size);
    }
  }

  lemma {:induction false} UpdateThenLookup(doc: Document, section: string, key: string, line: string, size: nat)
    requires WellFormedSection(section) && size > 0
    requires !Header(line) && Binds(line, key) && !Remark(key)
    ensures Lookup(Update(doc, section, key, Some(line)), section, key, size) == Some(BoundValue(line, size))
  {
    var d := Update(doc, section, key, Some(line));
    if section == "" {
      SetThenFind(doc, key, line, size);
    } else if doc == [] {
      HeaderLineParts(section);
      assert d[1..] == [line];
    } else if Opens(doc[0], section) {
      assert d[1..] == SetKey(doc[1..], key, Some(line));
      SetThenFind(doc[1..], key, line, size);
    } else {
      assert d[1..] == Update(doc[1..], section, key, Some(line));
      UpdateThenLookup(doc[1..], section, key, line, size);
    }
  }

  /** What the writer may store for a key: nothing, or a line answering to that key only. */
  ghost predicate EntryFor(line: Option<string>, key: string) {
    line.Some? ==> !Header(line.value) && forall k :: HasKey(line.value, k) ==> SameName(key, k)
  }

  lemma {:induction false} SetKeepsOtherKeys(doc: Document, key: string, line: Option<string>, key': string, size: nat)
    requires EntryFor(line, key) && !SameName(key, key') && size > 0
    ensures FindKey(SetKey(doc, key, line), key', size) == FindKey(doc, key', size)
  {
    var d := SetKey(doc, key, line);
    if doc == [] || Header(doc[0]) {
      if line.Some? { assert d[1..] == doc; } else { assert d == doc; }
    } else if HasKey(doc[0], key) {
      if HasKey(doc[0], key') { OneKeyPerLine(doc[0], key, key'); }
      if line.Some? { assert d[1..] == doc[1..]; } else { assert d == doc[1..]; }
    } else {
      assert d[1..] == SetKey(doc[1..], key, line);
      SetKeepsOtherKeys(doc[1..], key, line, key', size);
    }
  }

  /** Setting a key changes lines up to the next header only, so later sections read the same. */
  lemma {:induction false} SetKeepsLaterSections(doc: Document, key: string, line: Option<string>,
                                                section': string, key': string, size: nat)
    requires EntryFor(line, key) && section' != "" && size > 0
    requires !Header(key)
    ensures Lookup(SetKey(doc, key, line), section', key', size) == Lookup(doc, section', key', size)
  {
    var d := SetKey(doc, key, line);
    if doc == [] || Header(doc[0]) {
      if line.Some? { assert d[1..] == doc; } else { assert d == doc; }
    } else if HasKey(doc[0], key) {
      if line.Some? { assert d[1..] == doc[1..]; } else { assert d == doc[1..]; }
    } else {
      assert d[1..] == SetKey(doc[1..], key, line);
      SetKeepsLaterSections(doc[1..], key, line, section', key', size);
    }
  }

  /** The frame law: a write changes no other pair of section and key. */
  lemma {:induction false} UpdateKeepsOthers(doc: Document, section: string, key: string, line: Option<string>,
                                            section': string, key': string, size: nat)
    requires WellFormedSection(section) && EntryFor(line, key) && !Header(key) && size > 0
    requires !(SameName(section, section') && SameName(key, key'))
    ensures Lookup(Update(doc, section, key, line), section', key', size) == Lookup(doc, section', key', size)
  {
    var d := Update(doc, section, key, line);
    if section == "" {
      if section' == "" { SetKeepsOtherKeys(doc, key, line, key', size); }
      else { SetKeepsLaterSections(doc, key, line, section', key', size); }
    } else if doc == [] {
      HeaderLineParts(section);
      if line.Some? {
        var last := [line.value];
        assert d[1..] == last;
        assert last[1..] == [];
        assert Opens(d[0], section') <==> SameName(section, section');
        if SameName(section, section') {
          SetKeepsOtherKeys([], key, line, key', size);
          assert SetKey([], key, line) == last;
        } else if section' != "" {
          assert Lookup(last, section', key', size) == Lookup([], section', key', size);
        }
      }
    } else if Opens(doc[0], section) {
      assert d[1..] == SetKey(doc[1..], key, line);
      if section' != "" {
        if Opens(doc[0], section') {
          OneNamePerHeader(doc[0], section, section');
          SetKeepsOtherKeys(doc[1..], key, line, key', size);
        } else {
          SetKeepsLaterSections(doc[1..], key, line, section', key', size);
        }
      }
    } else {
      assert d[1..] == Update(doc[1..], section, key, line);
      if section' == "" {
        UpdateKeepsPreamble(doc, section, key, line, key', size);
      } else if Opens(doc[0], section') {
        UpdateKeepsPreamble(doc[1..], section, key, line, key', size);
      } else {
        UpdateKeepsOthers(doc[1..], section, key, line, section', key', size);
      }
    }
  }

  /** A write into a named section changes nothing before the next header. */
  lemma {:induction false} UpdateKeepsPreamble(doc: Document, section: string, key: string, line: Option<string>,
                                              key': string, size: nat)
    requires WellFormedSection(section) && section != "" && size > 0
    ensures FindKey(Update(doc, section, key, line), key', size) == FindKey(doc, key', size)
  {
    var d := Update(doc, section, key, line);
    if doc == [] {
      HeaderLineParts(section);
    } else if Opens(doc[0], section) {
    } else {
      assert d[1..] == Update(doc[1..], section, key, line);
      UpdateKeepsPreamble(doc[1..], section, key, line, key', size);
    }
  }

  // ---------- erasing ----------

  /** How many lines of the section answer to the key. */
  function CountKey(doc: Document, key: string): nat {
    if doc == [] || Header(doc[0]) then 0
    else (if HasKey(doc[0], key) then 1 else 0) + CountKey(doc[1..], key)
  }

  function CountIn(doc: Document, section: string, key: string): nat {
    if section == "" then CountKey(doc, key)
    else if doc == [] then 0
    else if Opens(doc[0], section) then CountKey(doc[1..], key)
    else CountIn(doc[1..], section, key)
  }

  lemma BindsIsHasKey(t: string, key: string)
    requires WellFormedKey(key)
    ensures Binds(t, key) <==> HasKey(t, key)
  {
    var k := SkipTrailing(t[..Separator(t)]);
    SkipTrailingShape(t[..Separator(t)]);
    assert k != "" && SameName(k, key) ==> Fold(k[0]) == Fold(key[0]) && k[0] == t[0];
  }

  lemma {:induction false} FoundIffCounted(doc: Document, key: string, size: nat)
    requires WellFormedKey(key) && size > 0
    ensures FindKey(doc, key, size).Some? <==> CountKey(doc, key) > 0
  {
    if doc != [] && !Header(doc[0]) {
      BindsIsHasKey(doc[0], key);
      FoundIffCounted(doc[1..], key, size);
    }
  }

  lemma {:induction false} EraseThenFind(doc: Document, key: string, size: nat)
    requires WellFormedKey(key) && size > 0
    ensures FindKey(SetKey(doc, key, None), key, size) == None <==> CountKey(doc, key) <= 1
  {
    if doc == [] || Header(doc[0]) {
      assert SetKey(doc, key, None) == doc;
    } else if HasKey(doc[0], key) {
      assert SetKey(doc, key, None) == doc[1..];
      FoundIffCounted(doc[1..], key, size);
    } else {
      assert SetKey(doc, key, None)[1..] == SetKey(doc[1..], key, None);
      EraseThenFind(doc[1..], key, size);
    }
  }

  /** Erasing removes one line, so the key is gone exactly when it was bound at most once. */
  lemma {:induction false} EraseThenLookup(doc: Document, section: string, key: string, size: nat)
    requires WellFormedSection(section) && WellFormedKey(key) && size > 0
    ensures Lookup(Update(doc, section, key, None), section, key, size) == None
            <==> CountIn(doc, section, key) <= 1
  {
    var d := Update(doc, section, key, None);
    if section == "" {
      EraseThenFind(doc, key, size);
    } else if doc == [] {
    } else if Opens(doc[0], section) {
      assert d[1..] == SetKey(doc[1..], key, None);
      EraseThenFind(doc[1..], key, size);
    } else {
      assert d[1..] == Update(doc[1..], section, key, None);
      EraseThenLookup(doc[1..], section, key, size);
    }
  }
}
