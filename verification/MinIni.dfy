/**
 The INI reader and writer as the source writes them: character walks over a line
 buffer, bounded copies into character arrays, and a whole-file rewrite line by
 line. Each is proved against the functions of IniText, IniDocument and IniRewrite.
 */
module MinIni {
  import opened Basics
  import opened IniText
  import opened IniDocument
  import opened IniRewrite

  // ---------- C strings in arrays ----------

  /** The characters from a position up to the terminator. */
  function CString(a: seq<char>, at: nat): string
    decreases |a| - at
  {
    if at >= |a| || a[at] == '\0' then "" else [a[at]] + CString(a, at + 1)
  }

  ghost predicate Holds(a: seq<char>, at: nat, s: string) {
    at + |s| < |a| && a[at..at + |s|] == s && a[at + |s|] == '\0'
  }

  /** The cells before at and from end on are the same in both. */
  ghost predicate SameOutside(a: seq<char>, b: seq<char>, at: nat, end: nat) {
    |a| == |b| && forall i :: 0 <= i < |a| && (i < at || end <= i) ==> a[i] == b[i]
  }

  lemma SameTransitive(a: seq<char>, b: seq<char>, c: seq<char>, at: nat, end: nat)
    requires SameOutside(a, b, at, end) && SameOutside(b, c, at, end)
    ensures SameOutside(a, c, at, end)
  {
  }

  /** A text written behind another one in the same array. */
  lemma WrittenBehind(a: seq<char>, b: seq<char>, x: string, v: string, end: nat)
    requires |x| <= |b| && b[..|x|] == x && SameOutside(a, b, |x|, end) && Holds(a, |x|, v)
    ensures a[..|x| + |v|] == x + v
  {
    assert a[..|x|] == b[..|x|];
    assert a[..|x| + |v|] == a[..|x|] + a[|x|..|x| + |v|];
  }

  lemma {:induction false} HeldString(a: seq<char>, at: nat, s: string)
    requires Holds(a, at, s) && '\0' !in s
    ensures CString(a, at) == s
    decreases |s|
  {
    if s != "" {
      assert a[at] == a[at..at + |s|][0] == s[0];
      assert a[at + 1..at + 1 + |s[1..]|] == a[at..at + |s|][1..];
      HeldString(a, at + 1, s[1..]);
    }
  }

  // ---------- walks over a line ----------

  method SkipLeadingFrom(buf: string, start: nat) returns (p: nat)
    requires start <= |buf|
    ensures start <= p <= |buf| && buf[p..] == SkipLeading(buf[start..])
  {
    p := start;
    while p < |buf| && IsBlank(buf[p])
      invariant start <= p <= |buf|
      invariant SkipLeading(buf[p..]) == SkipLeading(buf[start..])
    {
      SliceDrop(buf, p, 1);
      p := p + 1;
    }
  }

  method SkipTrailingFrom(buf: string, end: nat, base: nat) returns (p: nat)
    requires base <= end <= |buf|
    ensures base <= p <= end && buf[base..p] == SkipTrailing(buf[base..end])
  {
    p := end;
    while p > base && IsBlank(buf[p - 1])
      invariant base <= p <= end
      invariant SkipTrailing(buf[base..p]) == SkipTrailing(buf[base..end])
    {
      SliceTake(buf, base, p - 1, p);
      p := p - 1;
    }
  }

  /** strchr: the first occurrence at or behind a position; the end of the text when there is none. */
  method StrChr(buf: string, start: nat, c: char) returns (p: nat)
    requires start <= |buf|
    ensures start <= p <= |buf| && p - start == Find(buf[start..], c)
  {
    p := start;
    while p < |buf| && buf[p] != c
      invariant start <= p <= |buf|
      invariant Find(buf[start..], c) == p - start + Find(buf[p..], c)
    {
      SliceDrop(buf, p, 1);
      p := p + 1;
    }
  }

  /** strnicmp over as many characters as the name has. */
  method SameNameAt(buf: string, start: nat, name: string) returns (same: bool)
    requires start + |name| <= |buf|
    ensures same <==> SameName(buf[start..start + |name|], name)
  {
    var i := 0;
    while i < |name|
      invariant i <= |name|
      invariant forall k :: 0 <= k < i ==> Fold(buf[start..start + |name|][k]) == Fold(name[k])
    {
      if Fold(buf[start + i]) != Fold(name[i]) {
        assert Fold(buf[start..start + |name|][i]) != Fold(name[i]);
        return false;
      }
      i := i + 1;
    }
    return true;
  }

  /** fgets: up to size - 1 characters, ending behind a line feed. */
  method FGets(input: string, size: nat) returns (ok: bool, line: string, rest: string)
    requires size > 1
    ensures ok <==> input != ""
    ensures input == line + rest
    ensures ok ==> line == input[..if LineLength(input) < size - 1 then LineLength(input) else size - 1]
  {
    ok, line, rest := input != "", "", input;
    while rest != "" && |line| < size - 1 && (line == "" || line[|line| - 1] != '\n')
      invariant input == line + rest
      invariant |line| <= size - 1
      invariant '\n' !in line || (line != "" && line[|line| - 1] == '\n' && '\n' !in line[..|line| - 1])
      decreases |rest|
    {
      ghost var before := line;
      line, rest := line + [rest[0]], rest[1..];
      assert line[..|line| - 1] == before;
    }
    if ok { FirstChunk(input, line, rest); }
  }

  lemma FirstChunk(input: string, line: string, rest: string)
    requires input == line + rest && line != ""
    requires '\n' !in line || (line[|line| - 1] == '\n' && '\n' !in line[..|line| - 1])
    ensures line == input[..|line|]
    ensures '\n' in line ==> LineLength(input) == |line|
    ensures '\n' !in line ==> |line| <= LineLength(input) && (rest == "" ==> LineLength(input) == |line|)
  {
    if '\n' in line {
      var head := line[..|line| - 1];
      assert input == head + ("\n" + rest);
      FindPrefix(head, "\n" + rest, '\n');
    } else {
      FindPrefix(line, rest, '\n');
    }
  }

  /** Reading a line of a file whose lines fit the buffer. */
  method ReadLine(input: string) returns (ok: bool, line: string, rest: string)
    requires LinesFit(input)
    ensures ok <==> input != ""
    ensures ok ==> line == input[..LineLength(input)] && rest == input[LineLength(input)..] && LinesFit(rest)
    ensures ok ==> |rest| < |input|
    ensures !ok ==> rest == ""
  {
    ok, line, rest := FGets(input, BUFFER_SIZE);
    if ok {
      assert line == input[..LineLength(input)];
      assert rest == input[|line|..];
    }
  }

  /** Reading a line and skipping its leading blanks. */
  method ReadStripped(input: string) returns (ok: bool, line: string, sp: nat, rest: string)
    requires LinesFit(input)
    ensures ok <==> input != ""
    ensures ok ==> line == input[..LineLength(input)] && rest == input[LineLength(input)..]
    ensures ok ==> sp <= |line| && line[sp..] == Stripped(input) && |rest| < |input|
    ensures LinesFit(rest) && (!ok ==> rest == "")
  {
    ok, line, rest := ReadLine(input);
    sp := 0;
    if ok {
      sp := SkipLeadingFrom(line, 0);
      assert line[0..] == line;
    }
  }

  // ---------- save_strncpy ----------

  /**
   Copies a text into maxlen cells of an array, quoting or dequoting on the way;
   always terminated and never writing outside its cells.
   */
  method SaveStrncpy(dest: array<char>, at: nat, source: string, maxlen: nat, option: Quote)
    requires maxlen > 0 && at + maxlen <= dest.Length
    modifies dest
    ensures Holds(dest[..], at, Stored(source, maxlen, option))
    ensures SameOutside(dest[..], old(dest[..]), at, at + maxlen)
  {
    match if option == Enquote && maxlen < 3 then NoQuote else option {
      case NoQuote => CopyPlain(dest, at, source, maxlen);
      case Enquote => CopyEnquoted(dest, at, source, maxlen);
      case Dequote => CopyDequoted(dest, at, source, maxlen);
    }
  }

  /** strncpy, which pads with terminators, and the terminator forced into the last cell. */
  method CopyPlain(dest: array<char>, at: nat, source: string, maxlen: nat)
    requires maxlen > 0 && at + maxlen <= dest.Length
    modifies dest
    ensures Holds(dest[..], at, Clip(source, maxlen - 1))
    ensures SameOutside(dest[..], old(dest[..]), at, at + maxlen)
  {
    var d := 0;
    while d < maxlen
      invariant d <= maxlen
      invariant forall j :: at <= j < at + d ==> dest[j] == if j - at < |source| then source[j - at] else '\0'
      invariant SameOutside(dest[..], old(dest[..]), at, at + maxlen)
    {
      dest[at + d] := if d < |source| then source[d] else '\0';
      d := d + 1;
    }
    dest[at + maxlen - 1] := '\0';
    var n := if |source| <= maxlen - 1 then |source| else maxlen - 1;
    assert dest[at..at + n] == source[..n];
    assert dest[at + n] == '\0';
  }

  /** One more character behind the ones written so far, inside the cells up to end. */
  method PutChar(dest: array<char>, at: nat, ghost written: string, i: nat, c: char, ghost end: nat)
    requires at + |written| == i < end <= dest.Length && dest[at..i] == written
    modifies dest
    ensures dest[at..i + 1] == written + [c]
    ensures SameOutside(dest[..], old(dest[..]), at, end)
  {
    dest[i] := c;
  }

  function EscapedChar(c: char): (r: string)
    ensures 1 <= |r| <= 2 && (c != '"' ==> |r| == 1)
  {
    if c == '"' then "\\\"" else [c]
  }

  /** One source character, behind a backslash if it is a double quote. */
  method PutEscaped(dest: array<char>, at: nat, ghost written: string, i: nat, c: char, ghost end: nat) returns (n: nat)
    requires at + |written| == i && i + |EscapedChar(c)| <= end <= dest.Length && dest[at..i] == written
    modifies dest
    ensures n == i + |EscapedChar(c)| && dest[at..n] == written + EscapedChar(c)
    ensures SameOutside(dest[..], old(dest[..]), at, end)
  {
    n := i;
    if c == '"' {
      PutChar(dest, at, written, n, '\\', end);
      n := n + 1;
      PutChar(dest, at, written + "\\", n, c, end);
    } else {
      PutChar(dest, at, written, n, c, end);
    }
    n := n + 1;
  }

  lemma EscapeStops(source: string, s: nat, room: nat)
    requires s <= |source|
    requires s == |source| || room == 0 || (source[s] == '"' && room < 2)
    ensures Escape(source[s..], room) == ""
  {
  }

  lemma EscapeStep(source: string, s: nat, room: nat, body: string)
    requires s < |source| && room > 0
    ensures source[s] == '"' && room < 2 ==> Escape(source[s..], room) == ""
    ensures var w := EscapedChar(source[s]);
            |w| <= room ==> body + Escape(source[s..], room) == (body + w) + Escape(source[s + 1..], room - |w|)
  {
    assert source[s..][1..] == source[s + 1..];
  }

  /** The opening quote and as much of the escaped text as fits before the closing one. */
  method CopyEscaped(dest: array<char>, at: nat, source: string, maxlen: nat) returns (d: nat)
    requires maxlen >= 3 && at + maxlen <= dest.Length
    modifies dest
    ensures d == |Escape(source, maxlen - 3)| + 1
    ensures dest[at..at + d] == "\"" + Escape(source, maxlen - 3)
    ensures SameOutside(dest[..], old(dest[..]), at, at + maxlen)
  {
    hide Escape, SameOutside, EscapedChar;
    var s := 0;
    d := 1;
    ghost var initial, end, whole, written := dest[..], at + maxlen, "\"" + Escape(source, maxlen - 3), "\"";
    assert source[0..] == source;
    PutChar(dest, at, "", at, '"', end);
    while s < |source| && d < maxlen - 2
      invariant s <= |source| && 1 <= d <= maxlen - 2 && |written| == d
      invariant dest[at..at + d] == written
      invariant written + Escape(source[s..], maxlen - 2 - d) == whole
      invariant SameOutside(dest[..], initial, at, end)
      decreases |source| - s
    {
      EscapeStep(source, s, maxlen - 2 - d, written);
      if source[s] == '"' && d >= maxlen - 3 { break; }
      ghost var before := dest[..];
      var n := PutEscaped(dest, at, written, at + d, source[s], end);
      SameTransitive(dest[..], before, initial, at, end);
      written := written + EscapedChar(source[s]);
      s, d := s + 1, n - at;
    }
    EscapeStops(source, s, maxlen - 2 - d);
    assert written == whole;
  }

  method CopyEnquoted(dest: array<char>, at: nat, source: string, maxlen: nat)
    requires maxlen >= 3 && at + maxlen <= dest.Length
    modifies dest
    ensures Holds(dest[..], at, Stored(source, maxlen, Enquote))
    ensures SameOutside(dest[..], old(dest[..]), at, at + maxlen)
  {
    ghost var body := "\"" + Escape(source, maxlen - 3);
    var d := CopyEscaped(dest, at, source, maxlen);
    PutChar(dest, at, body, at + d, '"', at + maxlen);
    PutChar(dest, at, body + "\"", at + d + 1, '\0', at + maxlen);
    HeldByCells(dest, at, body + "\"");
  }

  lemma HeldByCells(dest: array<char>, at: nat, s: string)
    requires at + |s| < dest.Length && dest[at..at + |s| + 1] == s + "\0"
    ensures Holds(dest[..], at, s)
  {
    assert dest[at..at + |s|] == dest[at..at + |s| + 1][..|s|];
    assert dest[at + |s|] == dest[at..at + |s| + 1][|s|];
  }

  lemma UnescapeStops(source: string, s: nat, room: nat)
    requires s == |source| || (s < |source| && room == 0)
    ensures Unescape(source[s..], room) == ""
  {
  }

  lemma UnescapeStep(source: string, s: nat, room: nat, body: string)
    requires s < |source| && room > 0
    ensures var k := if (source[s] == '"' || source[s] == '\\') && s + 1 < |source| && source[s + 1] == '"'
                     then s + 1 else s;
            body + Unescape(source[s..], room) == (body + [source[k]]) + Unescape(source[k + 1..], room - 1)
  {
    assert source[s..][1..] == source[s + 1..];
    if s + 1 < |source| { assert source[s..][2..] == source[s + 2..]; }
  }

  method CopyDequoted(dest: array<char>, at: nat, source: string, maxlen: nat)
    requires maxlen > 0 && at + maxlen <= dest.Length
    modifies dest
    ensures Holds(dest[..], at, Stored(source, maxlen, Dequote))
    ensures SameOutside(dest[..], old(dest[..]), at, at + maxlen)
  {
    hide Unescape;
    var s, d := 0, 0;
    ghost var end := at + maxlen;
    ghost var body := "";
    assert source[0..] == source;
    while s < |source| && d < maxlen - 1
      invariant s <= |source| && d <= maxlen - 1 && |body| == d
      invariant dest[at..at + d] == body
      invariant body + Unescape(source[s..], maxlen - 1 - d) == Unescape(source, maxlen - 1)
      invariant SameOutside(dest[..], old(dest[..]), at, end)
      decreases |source| - s
    {
      UnescapeStep(source, s, maxlen - 1 - d, body);
      if (source[s] == '"' || source[s] == '\\') && s + 1 < |source| && source[s + 1] == '"' {
        s := s + 1;
      }
      PutChar(dest, at, body, at + d, source[s], end);
      body := body + [source[s]];
      s, d := s + 1, d + 1;
    }
    UnescapeStops(source, s, maxlen - 1 - d);
    assert body == Unescape(source, maxlen - 1);
    PutChar(dest, at, body, at + d, '\0', end);
    HeldByCells(dest, at, body);
  }

  // ---------- reading ----------

  lemma CutStep(buf: string, p: nat, quoted: bool)
    requires p < |buf| && ((buf[p] != ';' && buf[p] != '#') || quoted)
    ensures var doubled := p + 1 < |buf| && buf[p + 1] == '"' && (buf[p] == '"' || buf[p] == '\\');
            Cut(buf[p..], quoted)
            == if doubled then 2 + Cut(buf[p + 2..], quoted)
               else 1 + Cut(buf[p + 1..], if buf[p] == '"' then !quoted else quoted)
  {
    assert buf[p..][1..] == buf[p + 1..];
    if p + 1 < |buf| { assert buf[p..][2..] == buf[p + 2..]; }
  }

  lemma CutStops(buf: string, p: nat, quoted: bool)
    requires p <= |buf|
    requires p == |buf| || ((buf[p] == ';' || buf[p] == '#') && !quoted)
    ensures Cut(buf[p..], quoted) == 0
  {
  }

  /** The scan for a trailing comment over the value part of a line. */
  method CommentStart(buf: string, start: nat) returns (p: nat)
    requires start <= |buf|
    ensures p - start == Cut(buf[start..], false) && start <= p <= |buf|
  {
    hide Cut;
    var quoted := false;
    p := start;
    while p < |buf| && ((buf[p] != ';' && buf[p] != '#') || quoted)
      invariant start <= p <= |buf|
      invariant Cut(buf[start..], false) == p - start + Cut(buf[p..], quoted)
    {
      CutStep(buf, p, quoted);
      if buf[p] == '"' {
        if p + 1 < |buf| && buf[p + 1] == '"' { p := p + 1; } else { quoted := !quoted; }
      } else if buf[p] == '\\' && p + 1 < |buf| && buf[p + 1] == '"' {
        p := p + 1;
      }
      p := p + 1;
    }
    CutStops(buf, p, quoted);
  }

  /** A text that starts and ends with a double quote loses both. */
  method TrimQuotes(buf: string, sp: nat, ep: nat) returns (text: string, option: Quote)
    requires sp <= ep <= |buf|
    ensures var u := buf[sp..ep];
            if u != "" && u[0] == '"' && u[|u| - 1] == '"'
            then option == Dequote && text == if |u| == 1 then "" else u[1..|u| - 1]
            else option == NoQuote && text == u
  {
    text, option := buf[sp..ep], NoQuote;
    if sp < ep && buf[sp] == '"' && buf[ep - 1] == '"' {
      text, option := if ep - 1 == sp then "" else text[1..|text| - 1], Dequote;
    }
  }

  /** The value text of a line: blanks, comment and surrounding quotes taken off. */
  method ValueText(buf: string, separator: nat, ghost size: nat) returns (text: string, option: Quote)
    requires separator < |buf| && size > 0 && '\0' !in buf
    ensures '\0' !in text
    ensures Stored(text, size, option) == Decode(SkipLeading(buf[separator + 1..]), size)
  {
    hide Cut, SkipTrailing, SkipLeading, Unescape, Clip;
    var sp := SkipLeadingFrom(buf, separator + 1);
    var cut := CommentStart(buf, sp);
    var ep := SkipTrailingFrom(buf, cut, sp);
    SliceTake(buf, sp, cut, |buf|);
    assert buf[sp..] == buf[sp..|buf|];
    NoTerminatorInside(buf, sp, cut);
    text, option := TrimQuotes(buf, sp, ep);
  }

  lemma NoTerminatorInside(buf: string, sp: nat, cut: nat)
    requires sp <= cut <= |buf| && '\0' !in buf
    ensures '\0' !in SkipTrailing(buf[sp..cut])
  {
    SkipTrailingDrops(buf[sp..cut], '\0');
  }

  /** Copies the value behind a separator into the caller's buffer. */
  method CopyValue(buf: string, separator: nat, buffer: array<char>)
    requires separator < |buf| && buffer.Length > 0 && '\0' !in buf
    modifies buffer
    ensures CString(buffer[..], 0) == Decode(SkipLeading(buf[separator + 1..]), buffer.Length)
  {
    var text, option := ValueText(buf, separator, buffer.Length);
    SaveStrncpy(buffer, 0, text, buffer.Length, option);
    StoredHasNoTerminator(text, buffer.Length, option);
    HeldString(buffer[..], 0, Stored(text, buffer.Length, option));
  }

  lemma StoredHasNoTerminator(text: string, maxlen: nat, option: Quote)
    requires '\0' !in text && maxlen > 0
    ensures '\0' !in Stored(text, maxlen, option)
  {
    match option
    case NoQuote =>
    case Enquote => if maxlen >= 3 { EscapeOnlyAdds(text, maxlen - 3, '\0'); }
    case Dequote => UnescapeOnlyDrops(text, maxlen - 1, '\0');
  }

  /** Position of the separator of a line, or the length of the line. */
  method SeparatorOf(buf: string, start: nat) returns (p: nat)
    requires start <= |buf|
    ensures start <= p <= |buf| && p - start == Separator(buf[start..])
  {
    p := StrChr(buf, start, '=');
    if p == |buf| { p := StrChr(buf, start, ':'); }
  }

  method KeyMatches(buf: string, sp: nat, ep: nat, key: string) returns (same: bool)
    requires sp <= ep < |buf|
    ensures same <==> SameName(SkipTrailing(buf[sp..ep]), key)
  {
    var end := SkipTrailingFrom(buf, ep, sp);
    if end - sp != |key| { return false; }
    same := SameNameAt(buf, sp, key);
  }

  method SectionMatches(buf: string, sp: nat, section: string) returns (opens: bool)
    requires sp <= |buf|
    ensures opens <==> Opens(buf[sp..], section)
  {
    var ep := StrChr(buf, sp, ']');
    if sp == |buf| || buf[sp] != '[' || ep == |buf| || ep - sp - 1 != |section| { return false; }
    assert buf[sp..][1..ep - sp] == buf[sp + 1..ep];
    opens := SameNameAt(buf, sp + 1, section);
  }

  /** What a line as read contributes to the document is what the source's tests see of it. */
  lemma LineAsRead(input: string, section: string, key: string, size: nat)
    requires input != "" && size > 0 && '\n' !in section
    ensures Stripped(input) == "" ==> ParseDocument(input) == ParseDocument(input[LineLength(input)..])
    ensures Stripped(input) != "" ==>
              var t := SkipLeading(input[..Find(input, '\n')]);
              ParseDocument(input) == [t] + ParseDocument(input[LineLength(input)..]) &&
              (Header(Stripped(input)) <==> Header(t)) && (Remark(Stripped(input)) <==> Remark(t)) &&
              (HasKey(Stripped(input), key) <==> HasKey(t, key)) &&
              (Opens(Stripped(input), section) <==> Opens(t, section)) &&
              (HasKey(t, key) ==> BoundValue(Stripped(input), size) == BoundValue(t, size))
  {
    if Stripped(input) == "" {
      BlankFirstLine(input);
    } else {
      HeadAgrees(input, section, key);
      StrippedShape(input);
      ReadAlike(SkipLeading(input[..Find(input, '\n')]), section, key, size);
    }
  }

  lemma FindKeyStep(head: string, rest: Document, key: string, size: nat)
    requires size > 0
    ensures FindKey([head] + rest, key, size)
            == if Header(head) then None
               else if Binds(head, key) then Some(BoundValue(head, size))
               else FindKey(rest, key, size)
  {
    assert ([head] + rest)[1..] == rest;
  }

  lemma LookupStep(head: string, rest: Document, section: string, key: string, size: nat)
    requires size > 0 && section != ""
    ensures Lookup([head] + rest, section, key, size)
            == if Opens(head, section) then FindKey(rest, key, size) else Lookup(rest, section, key, size)
  {
    assert ([head] + rest)[1..] == rest;
  }

  /** The first loop of getkeystring: skip the lines up to the header of the section. */
  method SeekSection(file: string, section: string, ghost key: string, ghost size: nat)
    returns (found: bool, rest: string)
    requires LinesFit(file) && '\0' !in file && '\n' !in section && section != "" && size > 0
    ensures found ==> LinesFit(rest) && '\0' !in rest
    ensures Lookup(ParseDocument(file), section, key, size)
            == if found then FindKey(ParseDocument(rest), key, size) else None
  {
    found, rest := false, file;
    while !found
      invariant LinesFit(rest) && '\0' !in rest
      invariant Lookup(ParseDocument(file), section, key, size)
                == if found then FindKey(ParseDocument(rest), key, size)
                   else Lookup(ParseDocument(rest), section, key, size)
      decreases |rest|, !found
    {
      ghost var input := rest;
      var ok, line, sp;
      ok, line, sp, rest := ReadStripped(rest);
      if !ok { return; }
      NoTerminator(input, line, rest);
      found := SectionMatches(line, sp, section);
      LineAsRead(input, section, key, size);
      LookupStep(SkipLeading(input[..Find(input, '\n')]), ParseDocument(rest), section, key, size);
    }
  }

  lemma NoTerminator(input: string, line: string, rest: string)
    requires '\0' !in input && input != ""
    requires line == input[..LineLength(input)] && rest == input[LineLength(input)..]
    ensures '\0' !in line && '\0' !in rest
  {
  }

  /** The tests of the second loop of getkeystring on one line. */
  method LineMatches(line: string, sp: nat, key: string) returns (found: bool, ep: nat)
    requires sp <= |line|
    ensures found <==> line[sp..] != "" && Binds(line[sp..], key)
    ensures found ==> sp <= ep < |line| && ep - sp == Separator(line[sp..])
  {
    ep := SeparatorOf(line, sp);
    if sp == |line| || line[sp] == ';' || line[sp] == '#' || ep == |line| { return false, ep; }
    assert line[sp..][..ep - sp] == line[sp..ep];
    found := KeyMatches(line, sp, ep, key);
  }

  lemma FindNothing(key: string, size: nat)
    requires size > 0
    ensures FindKey(ParseDocument(""), key, size) == None
  {
  }

  /** The second loop of getkeystring: the first line of the section that holds the key. */
  method SeekKey(file: string, key: string, buffer: array<char>) returns (found: bool)
    requires LinesFit(file) && '\0' !in file && buffer.Length > 0
    modifies buffer
    ensures FindKey(ParseDocument(file), key, buffer.Length)
            == if found then Some(CString(buffer[..], 0)) else None
  {
    hide FindKey, ParseDocument, BoundValue, Stripped, HasKey;
    var rest := file;
    while true
      invariant LinesFit(rest) && '\0' !in rest
      invariant FindKey(ParseDocument(file), key, buffer.Length) == FindKey(ParseDocument(rest), key, buffer.Length)
      decreases |rest|
    {
      ghost var input := rest;
      var ok, line, sp;
      ok, line, sp, rest := ReadStripped(rest);
      if !ok {
        FindNothing(key, buffer.Length);
        return false;
      }
      NoTerminator(input, line, rest);
      LineAsRead(input, "", key, buffer.Length);
      FindKeyStep(SkipLeading(input[..Find(input, '\n')]), ParseDocument(rest), key, buffer.Length);
      if sp < |line| && line[sp] == '[' { return false; }
      var same, ep := LineMatches(line, sp, key);
      if same {
        CopyBound(line, sp, ep, buffer);
        return true;
      }
    }
  }

  /** Copies the value of the line that starts at sp and has its separator at ep. */
  method CopyBound(line: string, sp: nat, ep: nat, buffer: array<char>)
    requires sp <= ep < |line| && ep - sp == Separator(line[sp..]) && buffer.Length > 0 && '\0' !in line
    modifies buffer
    ensures CString(buffer[..], 0) == BoundValue(line[sp..], buffer.Length)
  {
    SliceDrop(line, sp, ep - sp + 1);
    CopyValue(line, ep, buffer);
  }

  /** getkeystring for a named key. */
  method GetKeyString(file: string, section: string, key: string, buffer: array<char>) returns (found: bool)
    requires LinesFit(file) && '\0' !in file && '\n' !in section && buffer.Length > 0
    modifies buffer
    ensures Lookup(ParseDocument(file), section, key, buffer.Length)
            == if found then Some(CString(buffer[..], 0)) else None
  {
    var rest := file;
    if section != "" {
      found, rest := SeekSection(file, section, key, buffer.Length);
      if !found { return; }
    }
    found := SeekKey(rest, key, buffer);
  }

  // ---------- writing ----------

  method CheckEnquote(value: string) returns (option: Quote)
    ensures option == if Enquoted(value) then Enquote else NoQuote
  {
    var p := 0;
    while p < |value| && value[p] != '"' && value[p] != ';' && value[p] != '#'
      invariant p <= |value|
      invariant '"' !in value[..p] && ';' !in value[..p] && '#' !in value[..p]
    {
      p := p + 1;
    }
    assert p == |value| ==> value[..p] == value;
    option := if p < |value| || (p > 0 && value[p - 1] == ' ') then Enquote else NoQuote;
  }

  /** writesection: the text handed to ini_write. */
  method WriteSection(buffer: array<char>, section: string) returns (text: string)
    requires buffer.Length == BUFFER_SIZE && '\0' !in section
    modifies buffer
    ensures text == SectionText(section)
  {
    if section == "" { return ""; }
    ghost var name := Clip(section, BUFFER_SIZE - 5);
    assert Stored(section, BUFFER_SIZE - 4, NoQuote) == name;
    buffer[0] := '[';
    ghost var before := buffer[..];
    assert before[..|"["|] == "[";
    SaveStrncpy(buffer, 1, section, BUFFER_SIZE - 4, NoQuote);
    WrittenBehind(buffer[..], before, "[", name, BUFFER_SIZE - 3);
    hide Stored, Clip, Holds, SameOutside;
    var p := StrLen(buffer, 1, name);
    PutChar(buffer, 0, "[" + name, p, ']', BUFFER_SIZE);
    text := EndLine(buffer, p + 1, "[" + name + "]");
  }

  /** Position of the terminator of the string a buffer holds. */
  method StrLen(buffer: array<char>, start: nat, ghost s: string) returns (p: nat)
    requires start + |s| < buffer.Length && '\0' !in s
    requires buffer[start..start + |s|] == s && buffer[start + |s|] == '\0'
    ensures p == start + |s|
  {
    p := start;
    while p < buffer.Length && buffer[p] != '\0'
      invariant start <= p <= start + |s|
    {
      assert buffer[p] == buffer[start..start + |s|][p - start];
      p := p + 1;
    }
  }

  /** writekey: key, separator and stored value in the line buffer, cut where it ends. */
  method WriteKey(buffer: array<char>, key: string, value: string) returns (text: string)
    requires buffer.Length == BUFFER_SIZE && '\0' !in key && '\0' !in value
    modifies buffer
    ensures text == KeyText(key, value)
  {
    var option := CheckEnquote(value);
    ghost var k := Clip(key, BUFFER_SIZE - 4);
    assert Stored(key, BUFFER_SIZE - 3, NoQuote) == k;
    hide Stored, Enquoted, Clip;
    SaveStrncpy(buffer, 0, key, BUFFER_SIZE - 3, NoQuote);
    var p := StrLen(buffer, 0, k);
    PutChar(buffer, 0, k, p, '=', BUFFER_SIZE);
    p := p + 1;
    var maxlen := BUFFER_SIZE - p - 2;
    ghost var before := buffer[..];
    SaveStrncpy(buffer, p, value, maxlen, option);
    ghost var v := Stored(value, maxlen, option);
    StoredHasNoTerminator(value, maxlen, option);
    WrittenBehind(buffer[..], before, k + "=", v, p + maxlen);
    hide Holds, SameOutside;
    p := StrLen(buffer, p, v);
    text := EndLine(buffer, p, k + "=" + v);
  }

  /** The line feed behind the text of a line. */
  method EndLine(buffer: array<char>, p: nat, ghost s: string) returns (text: string)
    requires |s| == p < buffer.Length && buffer[..p] == s
    modifies buffer
    ensures text == s + "\n"
  {
    PutChar(buffer, 0, s, p, '\n', buffer.Length);
    text := buffer[..p + 1];
  }

  /** write_quoted: the same value without a buffer, character by character. */
  method WriteQuoted(value: string) returns (text: string)
    ensures text == Encode(value)
  {
    var option := CheckEnquote(value);
    if option == NoQuote { return value; }
    text := "\"";
    var idx := 0;
    ghost var room := EscapedLength(value);
    while idx < |value|
      invariant idx <= |value| && room == EscapedLength(value[idx..])
      invariant "\"" + EscapeAll(value) == text + EscapeAll(value[idx..])
    {
      EscapeStep(value, idx, room, "");
      assert value[idx..][1..] == value[idx + 1..];
      Associate(text, EscapedChar(value[idx]), EscapeAll(value[idx + 1..]));
      room := room - |EscapedChar(value[idx])|;
      text := text + EscapedChar(value[idx]);
      idx := idx + 1;
    }
    text := text + "\"";
  }

  /** The copy loop behind the change. */
  method CopyLines(file: string, start: string) returns (out: string)
    requires LinesFit(file)
    ensures out == start + CopyRest(file)
  {
    var rest := file;
    out := start;
    while true
      invariant LinesFit(rest)
      invariant out + CopyRest(rest) == start + CopyRest(file)
      decreases |rest|
    {
      ghost var input := rest;
      var ok, line, sp;
      ok, line, sp, rest := ReadStripped(rest);
      if !ok { return; }
      ghost var tail := CopyRest(rest);
      out := CopySectionLine(out, line[sp..], true, tail);
    }
  }

  /** ini_puts from the first line of the section's keys on; out is what was written before. */
  method RewriteFromKeys(file: string, start: string, key: string, value: Option<string>, buffer: array<char>)
    returns (out: string)
    requires LinesFit(file) && buffer.Length == BUFFER_SIZE
    requires '\0' !in key && (value.Some? ==> '\0' !in value.value)
    modifies buffer
    ensures out == start + RewriteKeys(file, key, value)
  {
    var rest := file;
    out := start;
    while true
      invariant LinesFit(rest)
      invariant out + RewriteKeys(rest, key, value) == start + RewriteKeys(file, key, value)
      decreases |rest|
    {
      ghost var input := rest;
      var ok, line, sp;
      ok, line, sp, rest := ReadStripped(rest);
      if !ok {
        if value.Some? {
          var text := WriteKey(buffer, key, value.value);
          out := out + ("\n" + text);
        }
        return;
      }
      var same := HoldsKey(line, sp, key);
      if sp < |line| && line[sp] == '[' {
        out := NewHeaderAfterKey(out, input, line[sp..], key, value);
        out := CopyLines(rest, out);
        return;
      }
      if same {
        out := ReplaceKey(out, rest, key, value, buffer);
        return;
      }
      out := CopySectionLine(out, line[sp..], false, RewriteKeys(rest, key, value));
    }
  }

  /** The writer's test for the key, which does not look for comment characters. */
  method HoldsKey(line: string, sp: nat, key: string) returns (same: bool)
    requires sp <= |line|
    ensures same <==> HasKey(line[sp..], key)
  {
    var ep := SeparatorOf(line, sp);
    if ep == |line| { return false; }
    assert line[sp..][..ep - sp] == line[sp..ep];
    same := KeyMatches(line, sp, ep, key);
  }

  /** The key was found: its line is dropped and the new one written, then the rest is copied. */
  method ReplaceKey(start: string, rest: string, key: string, value: Option<string>, buffer: array<char>)
    returns (out: string)
    requires LinesFit(rest) && buffer.Length == BUFFER_SIZE
    requires '\0' !in key && (value.Some? ==> '\0' !in value.value)
    modifies buffer
    ensures out == start + (NewKeyText(key, value) + CopyRest(rest))
  {
    out := start;
    if value.Some? {
      var text := WriteKey(buffer, key, value.value);
      Associate(out, text, CopyRest(rest));
      out := out + text;
    } else {
      assert "" + CopyRest(rest) == CopyRest(rest);
    }
    out := CopyLines(rest, out);
  }

  /** Copies one line unless it is blank; a blank line goes before a header when lines were copied already. */
  method CopySectionLine(start: string, sp: string, written: bool, ghost tail: string) returns (out: string)
    ensures out + tail == start + if sp == "" then tail
                                  else if Header(sp) && written then "\n" + (sp + tail)
                                  else sp + tail
  {
    out := start;
    if sp != "" {
      Associate(start, "\n", sp + tail);
      Associate(start + "\n", sp, tail);
      Associate(start, sp, tail);
      if sp[0] == '[' && written { out := out + "\n"; }
      out := out + sp;
    }
  }

  /** The key was not found: it goes in front of the header just read, with a blank line between. */
  method NewHeaderAfterKey(start: string, ghost input: string, header: string, key: string, value: Option<string>)
    returns (out: string)
    requires input != "" && header == Stripped(input) && Header(header)
    ensures out + CopyRest(input[LineLength(input)..]) == start + RewriteKeys(input, key, value)
  {
    ghost var tail := CopyRest(input[LineLength(input)..]);
    out := start;
    if value.Some? {
      var text := WriteQuoted(value.value);
      ghost var line := KeyLine(key, value.value) + "\n";
      out := out + (key + "=" + text + "\n");
      Associate(start, line, "\n" + (header + tail));
      Associate(out, "\n", header + tail);
      out := out + "\n";
    }
    Associate(out, header, tail);
    out := out + header;
  }

  lemma SectionsEnd(written: bool, section: string, key: string, value: Option<string>)
    ensures RewriteSections("", written, section, key, value) == RewriteSections("", true, section, key, value)
  {
  }

  lemma SectionsStep(input: string, written: bool, section: string, key: string, value: Option<string>)
    requires input != ""
    ensures var sp := Stripped(input);
            var rest := input[LineLength(input)..];
            var tail := if Opens(sp, section) then RewriteKeys(rest, key, value)
                        else RewriteSections(rest, written || sp != "", section, key, value);
            RewriteSections(input, written, section, key, value)
            == if sp == "" then tail else if Header(sp) && written then "\n" + (sp + tail) else sp + tail
  {
  }

  /** The first loop of ini_puts: copy up to and including the header of the section. */
  method CopyToSection(file: string, section: string, ghost key: string, ghost value: Option<string>)
    returns (found: bool, out: string, rest: string)
    requires LinesFit(file) && section != ""
    ensures LinesFit(rest)
    ensures RewriteSections(file, false, section, key, value)
            == out + if found then RewriteKeys(rest, key, value) else RewriteSections("", true, section, key, value)
  {
    hide RewriteSections, RewriteKeys, Stripped, Opens;
    var count := 0;
    found, out, rest := false, "", file;
    while !found
      invariant LinesFit(rest) && 0 <= count
      invariant RewriteSections(file, false, section, key, value)
                == out + if found then RewriteKeys(rest, key, value)
                         else RewriteSections(rest, count > 0, section, key, value)
      decreases |rest|, !found
    {
      ghost var input := rest;
      var ok, line, sp;
      ok, line, sp, rest := ReadStripped(rest);
      if !ok {
        SectionsEnd(count > 0, section, key, value);
        return;
      }
      found := SectionMatches(line, sp, section);
      SectionsStep(input, count > 0, section, key, value);
      ghost var tail := if found then RewriteKeys(rest, key, value)
                        else RewriteSections(rest, count > 0 || sp < |line|, section, key, value);
      out := CopySectionLine(out, line[sp..], count > 0, tail);
      if sp < |line| { count := count + 1; }
    }
  }

  /** The copy of the whole file to the temporary file. */
  method RewriteFile(file: string, section: string, key: string, value: Option<string>) returns (out: string)
    requires LinesFit(file)
    requires '\0' !in section && '\0' !in key && (value.Some? ==> '\0' !in value.value)
    ensures out == Rewritten(file, section, key, value)
  {
    var buffer := new char[BUFFER_SIZE];
    if section == "" {
      out := RewriteFromKeys(file, "", key, value, buffer);
      return;
    }
    var found, rest;
    found, out, rest := CopyToSection(file, section, key, value);
    if found {
      out := RewriteFromKeys(rest, out, key, value, buffer);
    } else if value.Some? {
      var header := WriteSection(buffer, section);
      var text := WriteKey(buffer, key, value.value);
      out := out + ("\n" + (header + text));
    }
  }

  // ---------- files ----------

  /** The name of the temporary file: the last character becomes a tilde. */
  function TempName(name: string): string
    requires name != ""
  {
    name[..|name| - 1] + "~"
  }

  /** The files the INI functions open, read, write, remove and rename. */
  class FileStore {
    var files: map<string, string>

    function Content(name: string): Option<string>
      reads this
    {
      if name in files then Some(files[name]) else None
    }

    ghost predicate Readable(name: string)
      reads this
    {
      name in files ==> LinesFit(files[name]) && '\0' !in files[name]
    }

    /** ini_gets: the value, or the default, in the caller's buffer. */
    method Gets(section: string, key: string, default: string, buffer: array<char>, name: string) returns (n: nat)
      requires Readable(name) && buffer.Length > 0
      requires '\n' !in section && '\0' !in default
      modifies buffer
      ensures CString(buffer[..], 0)
              == match Read(Content(name), section, key, buffer.Length)
                 case Some(v) => v
                 case None => Clip(default, buffer.Length - 1)
      ensures n == |CString(buffer[..], 0)|
    {
      var ok := false;
      if name in files {
        ok := GetKeyString(files[name], section, key, buffer);
      }
      if !ok {
        SaveStrncpy(buffer, 0, default, buffer.Length, NoQuote);
        HeldString(buffer[..], 0, Clip(default, buffer.Length - 1));
      }
      n := |CString(buffer[..], 0)|;
    }

    /**
     ini_puts. The flag says whether the file system lets the output file be
     opened. The source file name must differ from its own temporary name.
     */
    method Puts(section: string, key: string, value: Option<string>, name: string, canWrite: bool) returns (ok: bool)
      requires Readable(name) && name != "" && TempName(name) != name
      requires '\n' !in section && '\0' !in section && '\0' !in key && (value.Some? ==> '\0' !in value.value)
      modifies this
      ensures ok ==> Content(name) == Put(old(Content(name)), section, key, value)
      ensures !ok ==> files == old(files)
      ensures var file := old(Content(name));
              ok <==> canWrite || (if file == None then value == None
                                   else value != None && Read(file, section, key, BUFFER_SIZE) == value)
      ensures var temp := name[..|name| - 1] + "~"; var file := old(Content(name));
              && (forall f :: f != name && f != temp ==> Content(f) == old(Content(f)))
              && var written := ok && file != None && (value == None || Read(file, section, key, BUFFER_SIZE) != value);
                 Content(temp) == if written then None else old(Content(temp))
    {
      var buffer := new char[BUFFER_SIZE];
      if name !in files {
        if value.Some? {
          if !canWrite { return false; }
          var header := WriteSection(buffer, section);
          var text := WriteKey(buffer, key, value.value);
          files := files[name := header + text];
        }
        return true;
      }
      var file := files[name];
      if value.Some? {
        var found := GetKeyString(file, section, key, buffer);
        if found && CString(buffer[..], 0) == value.value { return true; }
      }
      if !canWrite { return false; }
      var out := RewriteFile(file, section, key, value);
      files := files[TempName(name) := out];
      files := files - {name};
      files := (files - {TempName(name)})[name := out];
      return true;
    }
  }
}
