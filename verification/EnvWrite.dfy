/** Writing one setting into the .env file (backend/routers/ai_intel.py). */
module EnvWrite {
  import opened EnvPin

  const HEADER := "# -- OpenClaw Agent --\n"

  /** A line that holds the setting, or holds it commented out. */
  predicate Matches(line: string, key: string) {
    key + "=" <= Strip(line) || "# " + key + "=" <= Strip(line)
  }

  predicate AnyMatch(lines: seq<string>, key: string) {
    lines != [] && (Matches(lines[0], key) || AnyMatch(lines[1..], key))
  }

  function Entry(key: string, value: string): string { key + "=" + value + "\n" }

  /** The lines of a text with their ends; acc is the part already seen of the line. */
  function FileLines(text: string, acc: string): seq<string>
    decreases |text|
  {
    if text == "" then if acc == "" then [] else [acc]
    else if text[0] == '\n' then [acc + "\n"] + FileLines(text[1..], "")
    else FileLines(text[1..], acc + [text[0]])
  }

  function Pieces(lines: seq<string>, key: string, entry: string): seq<string> {
    if lines == [] then []
    else [if Matches(lines[0], key) then entry else lines[0]] + Pieces(lines[1..], key, entry)
  }

  function Concat(pieces: seq<string>): string {
    if pieces == [] then "" else pieces[0] + Concat(pieces[1..])
  }

  /** What is written, given the text as read. */
  function Written(text: string, key: string, entry: string): string {
    var lines := FileLines(text, "");
    if AnyMatch(lines, key) then Concat(Pieces(lines, key, entry)) else text + "\n" + HEADER + entry
  }

  /** One call on the bytes of the file; reading is in text mode. */
  function Write(raw: string, key: string, value: string): string {
    Written(Universal(raw), key, Entry(key, value))
  }

  /** A value that is read back as part of one line. A carriage return at its very end
      is read together with the newline that follows. */
  predicate OneLine(value: string) {
    forall i :: 0 <= i < |value| ==> value[i] != '\n' && (value[i] == '\r' ==> i == |value| - 1)
  }

  // ----------------------------------------------------------------- lines

  predicate NoNewline(s: string) { forall i :: 0 <= i < |s| ==> s[i] != '\n' }

  predicate IsLine(s: string) { s != "" && s[|s| - 1] == '\n' && NoNewline(s[..|s| - 1]) }

  /** Lines as a text is cut into: only the last may lack its end. */
  predicate WellCut(lines: seq<string>) {
    lines != [] ==>
      (IsLine(lines[0]) && WellCut(lines[1..])) || (|lines| == 1 && lines[0] != "" && NoNewline(lines[0]))
  }

  lemma EndedLine(line: string)
    requires NoNewline(line)
    ensures IsLine(line + "\n")
  {
    assert (line + "\n")[..|line|] == line;
  }

  lemma {:induction false} CutIsWellCut(text: string, acc: string)
    requires NoNewline(acc)
    ensures WellCut(FileLines(text, acc)) && Concat(FileLines(text, acc)) == acc + text
    decreases |text|
  {
    if text != "" {
      if text[0] == '\n' {
        CutIsWellCut(text[1..], "");
        EndedLine(acc);
        assert acc + text == acc + "\n" + text[1..];
        assert "" + text[1..] == text[1..];
        assert FileLines(text, acc)[1..] == FileLines(text[1..], "");
      } else {
        CutIsWellCut(text[1..], acc + [text[0]]);
        assert acc + text == acc + [text[0]] + text[1..];
      }
    } else if acc != "" {
      assert [acc][1..] == [];
    }
  }

  lemma {:induction false} CutOne(line: string, acc: string, rest: string)
    requires IsLine(line)
    ensures FileLines(line + rest, acc) == [acc + line] + FileLines(rest, "")
    decreases |line|
  {
    var text := line + rest;
    assert text[0] == line[0];
    if |line| == 1 {
      assert text[1..] == rest && line == "\n";
    } else {
      assert line[0] == line[..|line| - 1][0];
      assert line[1..][..|line| - 2] == line[..|line| - 1][1..];
      CutOne(line[1..], acc + [line[0]], rest);
      assert text[1..] == line[1..] + rest;
      assert acc + [line[0]] + line[1..] == acc + line;
    }
  }

  lemma {:induction false} CutLast(line: string, acc: string)
    requires NoNewline(line) && acc + line != ""
    ensures FileLines(line, acc) == [acc + line]
    decreases |line|
  {
    if line != "" {
      CutLast(line[1..], acc + [line[0]]);
      assert acc + [line[0]] + line[1..] == acc + line;
    } else {
      assert acc + line == acc;
    }
  }

  lemma {:induction false} ReadBack(lines: seq<string>)
    requires WellCut(lines)
    ensures FileLines(Concat(lines), "") == lines
  {
    if lines != [] {
      assert lines == [lines[0]] + lines[1..] && "" + lines[0] == lines[0];
      if IsLine(lines[0]) && WellCut(lines[1..]) {
        CutOne(lines[0], "", Concat(lines[1..]));
        ReadBack(lines[1..]);
      } else {
        assert Concat(lines) == lines[0];
        CutLast(lines[0], "");
      }
    }
  }

  lemma {:induction false} PiecesWellCut(lines: seq<string>, key: string, entry: string)
    requires WellCut(lines) && IsLine(entry)
    ensures WellCut(Pieces(lines, key, entry))
  {
    if lines != [] {
      assert Pieces(lines, key, entry)[1..] == Pieces(lines[1..], key, entry);
      if WellCut(lines[1..]) {
        PiecesWellCut(lines[1..], key, entry);
      }
    }
  }

  lemma {:induction false} CutAppend(text: string, acc: string, rest: string)
    ensures FileLines(text + "\n" + rest, acc) == FileLines(text + "\n", acc) + FileLines(rest, "")
    decreases |text|
  {
    var whole := text + "\n" + rest;
    if text == "" {
      assert whole[1..] == rest && ("\n")[1..] == "";
      assert FileLines(text + "\n", acc) == [acc + "\n"];
    } else {
      assert whole[1..] == text[1..] + "\n" + rest;
      assert (text + "\n")[1..] == text[1..] + "\n";
      if text[0] == '\n' {
        CutAppend(text[1..], "", rest);
      } else {
        CutAppend(text[1..], acc + [text[0]], rest);
      }
    }
  }

  // -------------------------------------------------------------- matching

  lemma {:induction false} TrimKeeps(s: string, p: string)
    requires p <= s && p != "" && !IsSpace(p[|p| - 1])
    ensures p <= TrimEnd(s)
  {
    if IsSpace(s[|s| - 1]) {
      assert p != s;
      assert p <= s[..|s| - 1];
      TrimKeeps(s[..|s| - 1], p);
    }
  }

  lemma EntryMatches(line: string, key: string)
    requires IsIdentifier(key) && key + "=" <= line
    ensures Matches(line, key)
  {
    assert line[0] == (key + "=")[0] == key[0];
    assert line[SkipSpace(line, 0)..] == line;
    TrimKeeps(line, key + "=");
  }

  lemma HeaderDoesNotMatch(key: string)
    requires IsIdentifier(key)
    ensures !Matches(HEADER, key)
  {
    assert HEADER[SkipSpace(HEADER, 0)..] == HEADER;
    assert TrimEnd(HEADER) == "# -- OpenClaw Agent --";
    assert (key + "=")[0] == key[0] && ("# " + key + "=")[2] == key[0];
  }

  /** The end of a line does not matter to the match. */
  lemma EndIgnored(line: string, key: string)
    requires NoNewline(line) && key != ""
    ensures Matches(line + "\n", key) <==> Matches(line, key)
  {
    var i := SkipSpace(line, 0);
    SkipMore(line, 0);
    if i < |line| {
      assert (line + "\n")[i..] == line[i..] + "\n";
      assert (line[i..] + "\n")[..|line[i..]|] == line[i..];
      assert TrimEnd(line[i..] + "\n") == TrimEnd(line[i..]);
    } else {
      assert Strip(line) == "" && Strip(line + "\n") == "";
    }
  }

  lemma {:induction false} SkipMore(s: string, i: nat)
    requires i <= |s|
    ensures SkipSpace(s + "\n", i) == if SkipSpace(s, i) < |s| then SkipSpace(s, i) else |s| + 1
    decreases |s| - i
  {
    if i < |s| {
      if IsSpace(s[i]) {
        SkipMore(s, i + 1);
      }
    } else {
      assert SkipSpace(s + "\n", |s| + 1) == |s| + 1;
    }
  }

  lemma {:induction false} EndAdded(text: string, acc: string, key: string)
    requires NoNewline(acc) && key != ""
    ensures AnyMatch(FileLines(text + "\n", acc), key) <==> AnyMatch(FileLines(text, acc), key)
    decreases |text|
  {
    if text == "" {
      EndIgnored(acc, key);
      assert text + "\n" == "\n" && ("\n")[1..] == "";
      assert [acc + "\n"][1..] == [] && [acc][1..] == [];
      assert acc == "" ==> Strip(acc) == "";
      assert FileLines("\n", acc) == [acc + "\n"];
    } else {
      assert (text + "\n")[1..] == text[1..] + "\n";
      if text[0] == '\n' {
        EndAdded(text[1..], "", key);
        assert FileLines(text, acc)[1..] == FileLines(text[1..], "");
        assert FileLines(text + "\n", acc)[1..] == FileLines(text[1..] + "\n", "");
      } else {
        EndAdded(text[1..], acc + [text[0]], key);
      }
    }
  }

  lemma {:induction false} MatchAppend(a: seq<string>, b: seq<string>, key: string)
    ensures AnyMatch(a + b, key) <==> AnyMatch(a, key) || AnyMatch(b, key)
  {
    if a == [] {
      assert a + b == b;
    } else {
      assert (a + b)[1..] == a[1..] + b;
      MatchAppend(a[1..], b, key);
    }
  }

  /** Putting the entry in keeps a matching line in the file, whatever the value is. */
  lemma {:induction false} MatchStays(lines: seq<string>, key: string, entry: string)
    requires WellCut(lines) && AnyMatch(lines, key) && StartsWith(entry, key)
    ensures AnyMatch(FileLines(Concat(Pieces(lines, key, entry)), ""), key)
  {
    var rest := Pieces(lines[1..], key, entry);
    assert Pieces(lines, key, entry)[1..] == rest;
    if Matches(lines[0], key) {
      FirstLine(entry, Concat(rest), key);
    } else {
      assert AnyMatch(lines[1..], key);
      CutOne(lines[0], "", Concat(rest));
      MatchStays(lines[1..], key, entry);
      var all := FileLines(Concat(Pieces(lines, key, entry)), "");
      assert all[1..] == FileLines(Concat(rest), "");
    }
  }

  /** The first line of the text is a setting of the key. */
  predicate StartsWith(entry: string, key: string) {
    IsIdentifier(key) && key + "=" <= entry && entry[|entry| - 1] == '\n'
  }

  lemma FirstLine(entry: string, rest: string, key: string)
    requires StartsWith(entry, key)
    ensures AnyMatch(FileLines(entry + rest, ""), key)
  {
    var n := NextNewline(entry, |key| + 1);
    var line := entry[..n + 1];
    assert IsLine(line) by {
      assert forall i :: 0 <= i < |key| ==> IsWord(key[i]) && entry[i] == (key + "=")[i];
      assert entry[|key|] == (key + "=")[|key|];
      assert line[..|line| - 1] == entry[..n];
    }
    assert entry + rest == line + (entry[n + 1..] + rest);
    CutOne(line, "", entry[n + 1..] + rest);
    assert "" + line == line && key + "=" <= line;
    EntryMatches(line, key);
  }

  function NextNewline(s: string, i: nat): (n: nat)
    requires i < |s| && s[|s| - 1] == '\n'
    ensures i <= n < |s| && s[n] == '\n' && forall k :: i <= k < n ==> s[k] != '\n'
    decreases |s| - i
  {
    if s[i] == '\n' then i else NextNewline(s, i + 1)
  }

  // ------------------------------------------------------- reading it again

  lemma {:induction false} UniversalAppend(a: string, b: string)
    requires a == "" || a[|a| - 1] != '\r'
    ensures Universal(a + b) == Universal(a) + Universal(b)
    decreases |a|
  {
    if a == "" {
      assert a + b == b;
    } else {
      var n := if a[0] == '\r' && |a| > 1 && a[1] == '\n' then 2 else 1;
      assert (a + b)[n..] == a[n..] + b;
      UniversalAppend(a[n..], b);
      assert |a| > 1 ==> (a + b)[1] == a[1];
    }
  }

  predicate AllPlain(lines: seq<string>) {
    forall i :: 0 <= i < |lines| ==> NoReturns(lines[i])
  }

  lemma {:induction false} CutIsPlain(text: string, acc: string)
    requires NoReturns(text) && NoReturns(acc)
    ensures AllPlain(FileLines(text, acc))
    decreases |text|
  {
    if text != "" {
      assert forall i :: 0 <= i < |text| - 1 ==> text[1..][i] == text[i + 1];
      if text[0] == '\n' {
        CutIsPlain(text[1..], "");
        assert NoReturns(acc + "\n");
      } else {
        CutIsPlain(text[1..], acc + [text[0]]);
      }
    }
  }

  /** Reading the written pieces back only changes the entries. */
  lemma {:induction false} PiecesRead(lines: seq<string>, key: string, entry: string)
    requires AllPlain(lines) && entry != "" && entry[|entry| - 1] == '\n'
    ensures Universal(Concat(Pieces(lines, key, entry))) == Concat(Pieces(lines, key, Universal(entry)))
  {
    if lines != [] {
      assert AllPlain(lines[1..]) by {
        assert forall i :: 0 <= i < |lines| - 1 ==> lines[1..][i] == lines[i + 1];
      }
      PiecesRead(lines[1..], key, entry);
      assert NoReturns(lines[0]);
      var piece := if Matches(lines[0], key) then entry else lines[0];
      var rest := Concat(Pieces(lines[1..], key, entry));
      assert Pieces(lines, key, entry) == [piece] + Pieces(lines[1..], key, entry);
      UniversalAppend(piece, rest);
      UniversalIdle(lines[0]);
    }
  }

  function Newlines(s: string): nat {
    if s == "" then 0 else (if s[0] == '\n' then 1 else 0) + Newlines(s[1..])
  }

  lemma {:induction false} NewlinesAppend(a: string, b: string)
    ensures Newlines(a + b) == Newlines(a) + Newlines(b)
  {
    if a == "" {
      assert a + b == b;
    } else {
      assert (a + b)[1..] == a[1..] + b;
      NewlinesAppend(a[1..], b);
    }
  }

  lemma {:induction false} NoneCounted(s: string)
    requires NoNewline(s)
    ensures Newlines(s) == 0
  {
    if s != "" {
      assert forall i :: 0 <= i < |s| - 1 ==> s[1..][i] == s[i + 1];
      NoneCounted(s[1..]);
    }
  }

  lemma LineCounts(s: string)
    requires IsLine(s)
    ensures Newlines(s) == 1
  {
    assert s == s[..|s| - 1] + "\n";
    NewlinesAppend(s[..|s| - 1], "\n");
    NoneCounted(s[..|s| - 1]);
  }

  /** An entry of several lines makes the file longer each time. */
  lemma {:induction false} MoreLines(lines: seq<string>, key: string, entry: string)
    requires WellCut(lines) && Newlines(entry) >= 2
    ensures Newlines(Concat(Pieces(lines, key, entry)))
         >= Newlines(Concat(lines)) + if AnyMatch(lines, key) then 1 else 0
  {
    if lines != [] {
      var piece := if Matches(lines[0], key) then entry else lines[0];
      var rest := Pieces(lines[1..], key, entry);
      assert WellCut(lines[1..]);
      MoreLines(lines[1..], key, entry);
      assert Pieces(lines, key, entry) == [piece] + rest;
      NewlinesAppend(piece, Concat(rest));
      NewlinesAppend(lines[0], Concat(lines[1..]));
      if IsLine(lines[0]) {
        LineCounts(lines[0]);
      } else {
        NoneCounted(lines[0]);
      }
    }
  }

  // --------------------------------------------------------------- the value

  lemma {:induction false} ValueRead(value: string)
    ensures OneLine(value) ==> IsLine(Universal(value + "\n"))
    ensures !OneLine(value) ==> Newlines(Universal(value + "\n")) >= 2
    ensures Universal(value + "\n") != "" && Universal(value + "\n")[|Universal(value + "\n")| - 1] == '\n'
    decreases |value|
  {
    var whole := value + "\n";
    if value == "" {
      assert whole == "\n" && Universal(("\n")[1..]) == "";
      assert Universal(whole) == "\n";
    } else if value == "\r" {
      assert whole[2..] == "";
      assert Universal(whole) == "\n";
    } else {
      var n := if value[0] == '\r' && value[1] == '\n' then 2 else 1;
      var rest := value[n..];
      assert whole[n..] == rest + "\n";
      assert |value| > 1 ==> whole[1] == value[1];
      var head := if value[0] == '\r' then '\n' else value[0];
      assert Universal(whole) == [head] + Universal(rest + "\n");
      ValueRead(rest);
      if head == '\n' {
        OneOrMore(rest);
        assert Universal(whole)[1..] == Universal(rest + "\n");
      } else {
        SameShape(value, head, Universal(rest + "\n"));
      }
    }
  }

  lemma OneOrMore(rest: string)
    requires OneLine(rest) ==> IsLine(Universal(rest + "\n"))
    requires !OneLine(rest) ==> Newlines(Universal(rest + "\n")) >= 2
    ensures Newlines(Universal(rest + "\n")) >= 1
  {
    if OneLine(rest) {
      LineCounts(Universal(rest + "\n"));
    }
  }

  /** An ordinary character in front changes nothing about the lines. */
  lemma SameShape(value: string, head: char, text: string)
    requires |value| > 0 && head == value[0] && head != '\n' && head != '\r'
    ensures OneLine(value) <==> OneLine(value[1..])
    ensures IsLine(text) ==> IsLine([head] + text)
    ensures Newlines([head] + text) == Newlines(text)
  {
    assert forall i :: 0 <= i < |value| - 1 ==> value[1..][i] == value[i + 1];
    assert ([head] + text)[1..] == text;
    if IsLine(text) {
      var s := [head] + text;
      assert s[..|s| - 1] == [head] + text[..|text| - 1];
    }
    if OneLine(value[1..]) {
      assert forall i :: 1 <= i < |value| ==> value[i] == value[1..][i - 1];
    }
  }

  lemma KeyIsOrdinary(key: string)
    requires IsIdentifier(key)
    ensures NoNewline(key + "=") && NoReturns(key + "=")
  {
    assert forall i :: 0 <= i < |key| ==> IsWord(key[i]) && (key + "=")[i] == key[i];
  }

  /** How an entry is read back. */
  lemma EntryRead(key: string, value: string) returns (read: string)
    requires IsIdentifier(key)
    ensures read == Universal(Entry(key, value)) && StartsWith(read, key)
    ensures OneLine(value) ==> IsLine(read)
    ensures !OneLine(value) ==> Newlines(read) >= 2
  {
    var head, tail := key + "=", Universal(value + "\n");
    read := Universal(Entry(key, value));
    KeyIsOrdinary(key);
    assert Entry(key, value) == head + (value + "\n");
    UniversalAppend(head, value + "\n");
    UniversalIdle(head);
    ValueRead(value);
    assert read == head + tail;
    NewlinesAppend(head, tail);
    if OneLine(value) {
      assert read[..|read| - 1] == head + tail[..|tail| - 1];
    }
  }

  // ------------------------------------------------------------ two writes

  /** Once the entry is in, putting it in again gives the same pieces. */
  lemma {:induction false} PiecesTwice(lines: seq<string>, key: string, read: string, entry: string)
    requires Matches(read, key)
    ensures Pieces(Pieces(lines, key, read), key, entry) == Pieces(lines, key, entry)
  {
    if lines != [] {
      PiecesTwice(lines[1..], key, read, entry);
      assert Pieces(lines, key, read)[1..] == Pieces(lines[1..], key, read);
    }
  }

  lemma {:induction false} PiecesUnmatched(lines: seq<string>, key: string, entry: string)
    requires !AnyMatch(lines, key)
    ensures Pieces(lines, key, entry) == lines
  {
    if lines != [] {
      PiecesUnmatched(lines[1..], key, entry);
    }
  }

  lemma {:induction false} PiecesAppend(a: seq<string>, b: seq<string>, key: string, entry: string)
    ensures Pieces(a + b, key, entry) == Pieces(a, key, entry) + Pieces(b, key, entry)
  {
    if a == [] {
      assert a + b == b;
    } else {
      assert (a + b)[1..] == a[1..] + b;
      PiecesAppend(a[1..], b, key, entry);
    }
  }

  lemma {:induction false} ConcatAppend(a: seq<string>, b: seq<string>)
    ensures Concat(a + b) == Concat(a) + Concat(b)
  {
    if a == [] {
      assert a + b == b;
    } else {
      assert (a + b)[1..] == a[1..] + b;
      ConcatAppend(a[1..], b);
    }
  }

  /** The text as the next call reads it, and the lines it finds there. */
  lemma AfterWrite(raw: string, key: string, value: string) returns (text: string, read: string)
    requires IsIdentifier(key)
    ensures text == Universal(raw) && NoReturns(text) && read == Universal(Entry(key, value))
    ensures StartsWith(read, key)
    ensures AnyMatch(FileLines(text, ""), key) ==>
      Universal(Write(raw, key, value)) == Concat(Pieces(FileLines(text, ""), key, read))
    ensures !AnyMatch(FileLines(text, ""), key) ==>
      Universal(Write(raw, key, value)) == text + "\n" + HEADER + read
  {
    text := Universal(raw);
    read := EntryRead(key, value);
    NoCarriageReturns(raw);
    CutIsPlain(text, "");
    var entry := Entry(key, value);
    PiecesRead(FileLines(text, ""), key, entry);
    HeaderIsPlain();
    PlainFront(text, HEADER, entry);
  }

  lemma HeaderIsPlain()
    ensures NoReturns(HEADER)
  {
  }

  lemma PlainFront(text: string, header: string, entry: string)
    requires NoReturns(text) && NoReturns(header)
    ensures Universal(text + "\n" + header + entry) == text + "\n" + header + Universal(entry)
  {
    UniversalAppend(text + "\n" + header, entry);
    UniversalIdle(text + "\n" + header);
  }

  lemma HeaderCut(text: string, header: string, read: string)
    requires IsLine(header)
    ensures FileLines(text + "\n" + header + read, "")
         == FileLines(text + "\n", "") + [header] + FileLines(read, "")
  {
    assert text + "\n" + header + read == text + "\n" + (header + read);
    CutAppend(text, "", header + read);
    CutOne(header, "", read);
    assert "" + header == header;
  }

  /** The lines of a file to which the entry was appended. */
  lemma AppendedLines(text: string, key: string, read: string)
    requires IsIdentifier(key) && !AnyMatch(FileLines(text, ""), key)
    ensures FileLines(text + "\n" + HEADER + read, "")
         == FileLines(text + "\n", "") + [HEADER] + FileLines(read, "")
    ensures !AnyMatch(FileLines(text + "\n", "") + [HEADER], key)
  {
    HeaderCut(text, HEADER, read);
    EndAdded(text, "", key);
    HeaderDoesNotMatch(key);
    assert [HEADER][1..] == [];
    MatchAppend(FileLines(text + "\n", ""), [HEADER], key);
  }

  lemma SecondWriteFound(text: string, key: string, read: string, entry: string)
    requires AnyMatch(FileLines(text, ""), key) && StartsWith(read, key) && IsLine(read)
    ensures Written(Concat(Pieces(FileLines(text, ""), key, read)), key, entry)
         == Concat(Pieces(FileLines(text, ""), key, entry))
  {
    var lines := FileLines(text, "");
    CutIsWellCut(text, "");
    MatchStays(lines, key, read);
    PiecesWellCut(lines, key, read);
    ReadBack(Pieces(lines, key, read));
    EntryMatches(read, key);
    PiecesTwice(lines, key, read, entry);
  }

  lemma SecondWriteAppended(text: string, key: string, read: string, entry: string)
    requires !AnyMatch(FileLines(text, ""), key) && StartsWith(read, key) && IsLine(read)
    ensures Written(text + "\n" + HEADER + read, key, entry) == text + "\n" + HEADER + entry
  {
    var front := FileLines(text + "\n", "") + [HEADER];
    AppendedLines(text, key, read);
    CutOne(read, "", "");
    assert "" + read == read && read + "" == read;
    assert FileLines(read, "") == [read];
    EntryMatches(read, key);
    MatchAppend(front, [read], key);
    PiecesAppend(front, [read], key, entry);
    PiecesUnmatched(front, key, entry);
    assert [read][1..] == [] && Pieces([read], key, entry) == [entry];
    CutIsWellCut(text + "\n", "");
    ConcatAppend(FileLines(text + "\n", ""), [HEADER]);
    ConcatAppend(front, [entry]);
    assert [HEADER][1..] == [] && [entry][1..] == [];
    assert Concat([HEADER]) == HEADER && Concat([entry]) == entry;
    assert "" + (text + "\n") == text + "\n";
  }

  /** After any write the next call finds the setting. */
  lemma FoundAfterwards(raw: string, key: string, value: string)
    requires IsIdentifier(key)
    ensures AnyMatch(FileLines(Universal(Write(raw, key, value)), ""), key)
  {
    var text, read := AfterWrite(raw, key, value);
    CutIsWellCut(text, "");
    if AnyMatch(FileLines(text, ""), key) {
      MatchStays(FileLines(text, ""), key, read);
    } else {
      AppendedLines(text, key, read);
      FirstLine(read, "", key);
      assert read + "" == read;
      MatchAppend(FileLines(text + "\n", "") + [HEADER], FileLines(read, ""), key);
    }
  }

  /** Writing twice is writing once exactly when the value stays on one line; otherwise
      every further call leaves another copy of the rest of the value behind. */
  lemma WriteTwice(raw: string, key: string, value: string)
    requires IsIdentifier(key)
    ensures Write(Write(raw, key, value), key, value) == Write(raw, key, value) <==> OneLine(value)
  {
    var once := Write(raw, key, value);
    var text, read := AfterWrite(raw, key, value);
    read := EntryRead(key, value);
    if OneLine(value) {
      if AnyMatch(FileLines(text, ""), key) {
        SecondWriteFound(text, key, read, Entry(key, value));
      } else {
        SecondWriteAppended(text, key, read, Entry(key, value));
      }
    } else {
      var text1, _ := AfterWrite(once, key, value);
      FoundAfterwards(raw, key, value);
      CutIsWellCut(text1, "");
      MoreLines(FileLines(text1, ""), key, read);
      assert "" + text1 == text1;
      assert Newlines(Universal(Write(once, key, value))) > Newlines(text1);
    }
  }

  // ------------------------------------------------------------ other lines

  function Others(lines: seq<string>, key: string): seq<string> {
    if lines == [] then []
    else (if Matches(lines[0], key) then [] else [lines[0]]) + Others(lines[1..], key)
  }

  lemma {:induction false} OthersAppend(a: seq<string>, b: seq<string>, key: string)
    ensures Others(a + b, key) == Others(a, key) + Others(b, key)
  {
    if a == [] {
      assert a + b == b;
    } else {
      assert (a + b)[1..] == a[1..] + b;
      OthersAppend(a[1..], b, key);
    }
  }

  lemma {:induction false} OthersUnmatched(lines: seq<string>, key: string)
    requires !AnyMatch(lines, key)
    ensures Others(lines, key) == lines
  {
    if lines != [] {
      OthersUnmatched(lines[1..], key);
    }
  }

  /** The lines that do not hold the setting, with extra ones where it stood. */
  function Spread(lines: seq<string>, key: string, extra: seq<string>): seq<string> {
    if lines == [] then []
    else (if Matches(lines[0], key) then extra else [lines[0]]) + Spread(lines[1..], key, extra)
  }

  lemma {:induction false} SpreadNothing(lines: seq<string>, key: string)
    ensures Spread(lines, key, []) == Others(lines, key)
  {
    if lines != [] {
      SpreadNothing(lines[1..], key);
    }
  }

  lemma CutEntry(read: string, rest: string)
    requires read != "" && read[|read| - 1] == '\n'
    ensures FileLines(read + rest, "") == FileLines(read, "") + FileLines(rest, "")
  {
    var front := read[..|read| - 1];
    assert read == front + "\n";
    CutAppend(front, "", rest);
  }

  lemma {:induction false} PiecesOthers(lines: seq<string>, key: string, read: string)
    requires WellCut(lines) && StartsWith(read, key)
    ensures Others(FileLines(Concat(Pieces(lines, key, read)), ""), key)
         == Spread(lines, key, Others(FileLines(read, ""), key))
  {
    if lines != [] {
      var rest := Pieces(lines[1..], key, read);
      assert Pieces(lines, key, read)[1..] == rest;
      if Matches(lines[0], key) {
        if |lines| > 1 {
          PiecesOthers(lines[1..], key, read);
        }
        CutEntry(read, Concat(rest));
        OthersAppend(FileLines(read, ""), FileLines(Concat(rest), ""), key);
      } else if IsLine(lines[0]) && WellCut(lines[1..]) {
        PiecesOthers(lines[1..], key, read);
        CutOne(lines[0], "", Concat(rest));
        assert "" + lines[0] == lines[0];
        OthersAppend([lines[0]], FileLines(Concat(rest), ""), key);
        OneOther(lines[0], key);
      } else {
        CutLast(lines[0], "");
        assert Concat(Pieces(lines, key, read)) == lines[0] && "" + lines[0] == lines[0];
        OneOther(lines[0], key);
      }
    }
  }

  lemma OneOther(line: string, key: string)
    ensures Others([line], key) == if Matches(line, key) then [] else [line]
  {
    assert [line][1..] == [];
  }

  /** What a write does to the lines that do not hold the setting. Where the setting was
      found they are read back unchanged and in order, with the further lines of the value
      after each place where it stood. Where it was not, all lines stay, the last one with
      its end, and the header and the further lines of the value follow. */
  lemma OtherLinesStay(raw: string, key: string, value: string)
    requires IsIdentifier(key)
    ensures var lines := FileLines(Universal(raw), "");
      var extra := Others(FileLines(Universal(Entry(key, value)), ""), key);
      Others(FileLines(Universal(Write(raw, key, value)), ""), key)
      == if AnyMatch(lines, key) then Spread(lines, key, extra)
         else FileLines(Universal(raw) + "\n", "") + [HEADER] + extra
  {
    var text, read := AfterWrite(raw, key, value);
    CutIsWellCut(text, "");
    if AnyMatch(FileLines(text, ""), key) {
      PiecesOthers(FileLines(text, ""), key, read);
    } else {
      AppendedLines(text, key, read);
      var front := FileLines(text + "\n", "") + [HEADER];
      OthersAppend(front, FileLines(read, ""), key);
      OthersUnmatched(front, key);
    }
  }

  /** A value on one line leaves no further lines, so nothing but the setting changes. */
  lemma OneLineAddsNothing(raw: string, key: string, value: string)
    requires IsIdentifier(key) && OneLine(value)
    ensures Others(FileLines(Universal(Entry(key, value)), ""), key) == []
    ensures AnyMatch(FileLines(Universal(raw), ""), key) ==>
      Others(FileLines(Universal(Write(raw, key, value)), ""), key) == Others(FileLines(Universal(raw), ""), key)
  {
    var read := EntryRead(key, value);
    CutOne(read, "", "");
    assert "" + read == read && read + "" == read && FileLines(read, "") == [read];
    EntryMatches(read, key);
    OneOther(read, key);
    OtherLinesStay(raw, key, value);
    SpreadNothing(FileLines(Universal(raw), ""), key);
  }

  // --------------------------------------------------------------- the loop

  lemma BlockAppended(text: string, key: string, header: string, entry: string)
    requires !AnyMatch(FileLines(text, ""), key)
    ensures Concat(Pieces(FileLines(text, ""), key, entry) + ["\n" + header + entry])
         == text + "\n" + header + entry
  {
    var file, block := FileLines(text, ""), "\n" + header + entry;
    PiecesUnmatched(file, key, entry);
    CutIsWellCut(text, "");
    ConcatAppend(file, [block]);
    assert [block][1..] == [] && Concat([block]) == block && "" + text == text;
    assert text + block == text + "\n" + header + entry;
  }

  method WriteEnvValue(raw: string, key: string, value: string) returns (content: string)
    ensures content == Write(raw, key, value)
  {
    var text := Universal(raw);
    var entry := Entry(key, value);
    var file := FileLines(text, "");
    var lines, found := [], false;
    for i := 0 to |file|
      invariant lines + Pieces(file[i..], key, entry) == Pieces(file, key, entry)
      invariant found || AnyMatch(file[i..], key) <==> AnyMatch(file, key)
    {
      var line := file[i];
      LineStep(file, key, entry, i, lines);
      if Matches(line, key) {
        line := entry;
        found := true;
      }
      lines := lines + [line];
    }
    assert lines + [] == lines == Pieces(file, key, entry);
    if !found {
      lines := lines + ["\n" + HEADER + entry];
      BlockAppended(text, key, HEADER, entry);
    }
    content := Concat(lines);
  }

  lemma LineStep(file: seq<string>, key: string, entry: string, i: nat, lines: seq<string>)
    requires i < |file|
    ensures lines + Pieces(file[i..], key, entry)
         == lines + [if Matches(file[i], key) then entry else file[i]] + Pieces(file[i + 1..], key, entry)
    ensures AnyMatch(file[i..], key) <==> Matches(file[i], key) || AnyMatch(file[i + 1..], key)
  {
    assert file[i..][1..] == file[i + 1..];
  }
}
