/** Refreshing the pinned library digest in an .env file.
    (scripts/refresh_privacy_core_pin.py) */
module EnvPin {
  const PIN_KEY := "PRIVACY_CORE_ALLOWED_SHA256"

  datatype Option<T> = None | Some(value: T)

  // ------------------------------------------------------------------ text

  /** White space as the standard library sees it. */
  predicate IsSpace(c: char) {
    var n := c as int;
    9 <= n <= 13 || 28 <= n <= 32 || n == 133 || n == 160 || n == 5760 || 8192 <= n <= 8202
    || n == 8232 || n == 8233 || n == 8239 || n == 8287 || n == 12288
  }

  predicate IsLetter(c: char) { 'A' <= c <= 'Z' || 'a' <= c <= 'z' || c == '_' }

  predicate IsWord(c: char) { IsLetter(c) || '0' <= c <= '9' }

  function SkipSpace(s: string, i: nat): (j: nat)
    requires i <= |s|
    ensures i <= j <= |s| && (forall k :: i <= k < j ==> IsSpace(s[k])) && (j < |s| ==> !IsSpace(s[j]))
    decreases |s| - i
  {
    if i < |s| && IsSpace(s[i]) then SkipSpace(s, i + 1) else i
  }

  function SkipWord(s: string, i: nat): (j: nat)
    requires i <= |s|
    ensures i <= j <= |s| && (forall k :: i <= k < j ==> IsWord(s[k])) && (j < |s| ==> !IsWord(s[j]))
    decreases |s| - i
  {
    if i < |s| && IsWord(s[i]) then SkipWord(s, i + 1) else i
  }

  function TrimEnd(s: string): string {
    if s != "" && IsSpace(s[|s| - 1]) then TrimEnd(s[..|s| - 1]) else s
  }

  function Strip(s: string): string { TrimEnd(s[SkipSpace(s, 0)..]) }

  /** Strip one kind of quote from both ends. */
  function StripQuote(s: string, q: char): string {
    if s != "" && s[0] == q then StripQuote(s[1..], q)
    else if s != "" && s[|s| - 1] == q then StripQuote(s[..|s| - 1], q)
    else s
  }

  // ----------------------------------------------------------------- lines

  /** A line of the form: blanks, identifier, blanks, equals sign, rest. */
  function MatchLine(line: string): Option<(string, string)> {
    var i := SkipSpace(line, 0);
    if i == |line| || !IsLetter(line[i]) then None
    else
      var j := SkipWord(line, i + 1);
      var k := SkipSpace(line, j);
      if k < |line| && line[k] == '=' then Some((line[i..j], line[k + 1..])) else None
  }

  function Value(rest: string): string {
    StripQuote(StripQuote(Strip(rest), '"'), '\'')
  }

  /** The settings after one more line; a later line wins. */
  function Apply(values: map<string, string>, line: string): map<string, string> {
    match MatchLine(line)
    case None => values
    case Some((key, rest)) => values[key := Value(rest)]
  }

  function ParseEnv(lines: seq<string>): map<string, string> {
    if lines == [] then map[] else Apply(ParseEnv(lines[..|lines| - 1]), lines[|lines| - 1])
  }

  /** A line that sets the given key, as the rewriting pattern recognises it. */
  predicate SetsKey(line: string, key: string) {
    var i := SkipSpace(line, 0);
    key <= line[i..] &&
    var k := SkipSpace(line, i + |key|);
    k < |line| && line[k] == '='
  }

  function Setting(key: string, value: string): string { key + "=" + value }

  function Rewrite(line: string, key: string, value: string): string {
    if SetsKey(line, key) then Setting(key, value) else line
  }

  function ReplaceAll(lines: seq<string>, key: string, value: string): (r: seq<string>)
    ensures |r| == |lines|
  {
    if lines == [] then []
    else ReplaceAll(lines[..|lines| - 1], key, value) + [Rewrite(lines[|lines| - 1], key, value)]
  }

  predicate AnySets(lines: seq<string>, key: string) {
    lines != [] && (AnySets(lines[..|lines| - 1], key) || SetsKey(lines[|lines| - 1], key))
  }

  /** The blank line put before an appended setting. */
  function Gap(lines: seq<string>): seq<string> {
    if lines != [] && Strip(lines[|lines| - 1]) != "" then [""] else []
  }

  function ReplaceOrAppend(lines: seq<string>, key: string, value: string): (seq<string>, bool) {
    if AnySets(lines, key) then (ReplaceAll(lines, key, value), true)
    else (lines + Gap(lines) + [Setting(key, value)], false)
  }

  predicate IsIdentifier(key: string) {
    key != "" && IsLetter(key[0]) && forall i :: 0 <= i < |key| ==> IsWord(key[i])
  }

  lemma PinKeyIsIdentifier()
    ensures IsIdentifier(PIN_KEY)
  {
  }

  lemma PatternFinds(line: string, key: string)
    requires MatchLine(line).Some? && MatchLine(line).value.0 == key
    ensures SetsKey(line, key)
  {
    var i := SkipSpace(line, 0);
    var j := SkipWord(line, i + 1);
    assert line[i..][..j - i] == key;
  }

  lemma ParserFinds(line: string, key: string)
    requires IsIdentifier(key) && SetsKey(line, key)
    ensures MatchLine(line).Some? && MatchLine(line).value.0 == key
  {
    var i := SkipSpace(line, 0);
    assert line[i] == line[i..][0] == key[0];
    assert line[i..i + |key|] == line[i..][..|key|] == key;
    WordEnds(line, key, i);
  }

  /** The rewriting pattern and the parser agree on which lines set a key. */
  lemma PatternAgrees(line: string, key: string)
    requires IsIdentifier(key)
    ensures SetsKey(line, key) <==> MatchLine(line).Some? && MatchLine(line).value.0 == key
  {
    if SetsKey(line, key) {
      ParserFinds(line, key);
    } else if MatchLine(line).Some? && MatchLine(line).value.0 == key {
      PatternFinds(line, key);
    }
  }

  /** The word that the parser reads is the key when the pattern has found it. */
  lemma WordEnds(line: string, key: string, i: nat)
    requires IsIdentifier(key) && i + |key| <= |line| && line[i..i + |key|] == key
    requires SkipSpace(line, i + |key|) < |line| && line[SkipSpace(line, i + |key|)] == '='
    ensures SkipWord(line, i + 1) == i + |key|
  {
    var e := i + |key|;
    assert forall k :: i <= k < e ==> line[k] == key[k - i];
    assert !IsWord(line[e]) by {
      assert e < SkipSpace(line, e) ==> IsSpace(line[e]);
    }
  }

  lemma SettingSets(key: string, value: string)
    requires IsIdentifier(key)
    ensures SetsKey(Setting(key, value), key)
  {
    var line := Setting(key, value);
    assert line[0] == key[0] && line[..|key|] == key && line[|key|] == '=';
    assert SkipSpace(line, 0) == 0 && line[0..] == line;
  }

  lemma SettingParses(key: string, value: string)
    requires IsIdentifier(key)
    ensures SetsKey(Setting(key, value), key)
    ensures MatchLine(Setting(key, value)) == Some((key, value))
  {
    SettingSets(key, value);
    var line := Setting(key, value);
    ParserFinds(line, key);
    assert line[0] == key[0] && line[..|key|] == key && line[|key|] == '=';
    WordEnds(line, key, 0);
    assert line[|key| + 1..] == value;
  }

  // ------------------------------------------------- rewriting and parsing

  /** The parser sees a key exactly when some line would be replaced. */
  lemma {:induction false} KeySeen(lines: seq<string>, key: string)
    requires IsIdentifier(key)
    ensures AnySets(lines, key) <==> key in ParseEnv(lines)
  {
    if lines != [] {
      KeySeen(lines[..|lines| - 1], key);
      PatternAgrees(lines[|lines| - 1], key);
    }
  }

  lemma ParseSnoc(lines: seq<string>, line: string)
    ensures ParseEnv(lines + [line]) == Apply(ParseEnv(lines), line)
  {
    assert (lines + [line])[..|lines|] == lines;
  }

  /** A rewritten line sets the key, whatever the line set before. */
  lemma RewrittenLine(values: map<string, string>, line: string, key: string, value: string)
    requires IsIdentifier(key) && SetsKey(line, key)
    ensures Apply(values, Rewrite(line, key, value)) == values[key := Value(value)]
    ensures Apply(values, line)[key := Value(value)] == values[key := Value(value)]
  {
    PatternAgrees(line, key);
    SettingParses(key, value);
    SetTwice(values, key, MatchLine(line).value.1, value);
  }

  lemma SetTwice(values: map<string, string>, key: string, rest: string, value: string)
    ensures values[key := Value(rest)][key := Value(value)] == values[key := Value(value)]
  {
  }

  /** A line that is kept does not touch the key. */
  lemma KeptLine(values: map<string, string>, line: string, key: string, v: string)
    requires IsIdentifier(key) && !SetsKey(line, key)
    ensures Apply(values[key := v], line) == Apply(values, line)[key := v]
  {
    PatternAgrees(line, key);
  }

  lemma {:induction false} ReplacedParses(lines: seq<string>, key: string, value: string)
    requires IsIdentifier(key)
    ensures ParseEnv(ReplaceAll(lines, key, value))
         == if AnySets(lines, key) then ParseEnv(lines)[key := Value(value)] else ParseEnv(lines)
  {
    if lines != [] {
      var front, line := lines[..|lines| - 1], lines[|lines| - 1];
      var before := ReplaceAll(front, key, value);
      ReplacedParses(front, key, value);
      ParseSnoc(before, Rewrite(line, key, value));
      if SetsKey(line, key) {
        RewrittenLine(ParseEnv(front), line, key, value);
        RewrittenLine(ParseEnv(before), line, key, value);
      } else {
        KeptLine(ParseEnv(front), line, key, Value(value));
      }
    }
  }

  /** After the rewrite the parser sees the same settings with only the key changed,
      and a line was replaced exactly when the parser saw the key before. */
  lemma RewriteAgreesWithParser(lines: seq<string>, key: string, value: string)
    requires IsIdentifier(key)
    ensures ParseEnv(ReplaceOrAppend(lines, key, value).0) == ParseEnv(lines)[key := Value(value)]
    ensures ReplaceOrAppend(lines, key, value).1 <==> key in ParseEnv(lines)
  {
    KeySeen(lines, key);
    if AnySets(lines, key) {
      ReplacedParses(lines, key, value);
    } else {
      SettingParses(key, value);
      ParseSnoc(lines, "");
      assert lines + [] == lines;
      assert ParseEnv(lines + Gap(lines)) == ParseEnv(lines);
      ParseSnoc(lines + Gap(lines), Setting(key, value));
    }
  }

  lemma {:induction false} ReplaceTwice(lines: seq<string>, key: string, value: string)
    requires IsIdentifier(key)
    ensures ReplaceAll(ReplaceAll(lines, key, value), key, value) == ReplaceAll(lines, key, value)
  {
    if lines != [] {
      var before := ReplaceAll(lines[..|lines| - 1], key, value);
      var line := Rewrite(lines[|lines| - 1], key, value);
      ReplaceTwice(lines[..|lines| - 1], key, value);
      SettingParses(key, value);
      assert ReplaceAll(lines, key, value)[..|before|] == before;
      assert Rewrite(line, key, value) == line;
    }
  }

  lemma {:induction false} ReplaceNothing(lines: seq<string>, key: string, value: string)
    requires !AnySets(lines, key)
    ensures ReplaceAll(lines, key, value) == lines
  {
    if lines != [] {
      ReplaceNothing(lines[..|lines| - 1], key, value);
      assert lines == lines[..|lines| - 1] + [lines[|lines| - 1]];
    }
  }

  /** Rewriting is idempotent, and the second time a line is always replaced. */
  lemma RewriteTwice(lines: seq<string>, key: string, value: string)
    requires IsIdentifier(key)
    ensures var updated := ReplaceOrAppend(lines, key, value).0;
      ReplaceOrAppend(updated, key, value) == (updated, true)
  {
    var updated := ReplaceOrAppend(lines, key, value).0;
    RewriteAgreesWithParser(lines, key, value);
    KeySeen(updated, key);
    if AnySets(lines, key) {
      ReplaceTwice(lines, key, value);
    } else {
      var front := lines + Gap(lines);
      SettingParses(key, value);
      assert !AnySets(front, key) by {
        assert lines + [] == lines;
        assert (lines + [""])[..|lines|] == lines;
        assert !SetsKey("", key);
      }
      ReplaceNothing(front, key, value);
      assert updated[..|front|] == front;
    }
  }

  // ------------------------------------------------------- the whole script

  predicate IsHexDigit(c: char) { '0' <= c <= '9' || 'a' <= c <= 'f' }

  predicate IsDigest(s: string) { |s| == 64 && forall i :: 0 <= i < |s| ==> IsHexDigit(s[i]) }

  /** A digest survives the cleaning of the value. */
  lemma DigestIsClean(digest: string)
    requires IsDigest(digest)
    ensures Strip(digest) == digest && Value(digest) == digest
  {
    assert IsHexDigit(digest[0]) && IsHexDigit(digest[63]);
    assert digest[SkipSpace(digest, 0)..] == digest;
  }

  /** What ends a line. */
  predicate IsBreak(c: char) {
    var n := c as int;
    10 <= n <= 13 || 28 <= n <= 30 || n == 133 || n == 8232 || n == 8233
  }

  predicate BreakFree(s: string) { forall i :: 0 <= i < |s| ==> !IsBreak(s[i]) }

  /** The lines of a text; acc is the part of the current line already seen. */
  function SplitLines(text: string, acc: string): seq<string>
    decreases |text|
  {
    if text == "" then if acc == "" then [] else [acc]
    else if text[0] == '\r' && |text| > 1 && text[1] == '\n' then [acc] + SplitLines(text[2..], "")
    else if IsBreak(text[0]) then [acc] + SplitLines(text[1..], "")
    else SplitLines(text[1..], acc + [text[0]])
  }

  /** Reading in text mode turns both other line ends into a plain newline. */
  function Universal(raw: string): string
    decreases |raw|
  {
    if raw == "" then ""
    else if raw[0] == '\r' then "\n" + Universal(raw[if |raw| > 1 && raw[1] == '\n' then 2 else 1..])
    else [raw[0]] + Universal(raw[1..])
  }

  function JoinLines(lines: seq<string>): string {
    if lines == [] then "" else lines[0] + "\n" + JoinLines(lines[1..])
  }

  predicate NoReturns(s: string) { forall i :: 0 <= i < |s| ==> s[i] != '\r' }

  /** The script looks for carriage returns to keep the line ends of the file, but
      what it reads no longer has any, so it always writes plain newlines. */
  lemma {:induction false} NoCarriageReturns(raw: string)
    ensures NoReturns(Universal(raw))
    decreases |raw|
  {
    if raw != "" {
      if raw[0] == '\r' {
        NoCarriageReturns(raw[if |raw| > 1 && raw[1] == '\n' then 2 else 1..]);
      } else {
        NoCarriageReturns(raw[1..]);
      }
    }
  }

  lemma {:induction false} UniversalIdle(text: string)
    requires NoReturns(text)
    ensures Universal(text) == text
    decreases |text|
  {
    if text != "" {
      assert forall i :: 0 <= i < |text| - 1 ==> text[1..][i] == text[i + 1];
      UniversalIdle(text[1..]);
      assert text == [text[0]] + text[1..];
    }
  }

  lemma {:induction false} SplitOneLine(acc: string, line: string, rest: string)
    requires BreakFree(line)
    ensures SplitLines(line + "\n" + rest, acc) == [acc + line] + SplitLines(rest, "")
    decreases |line|
  {
    var text := line + "\n" + rest;
    if line == "" {
      assert text[1..] == rest && acc + line == acc;
    } else {
      assert !IsBreak(line[0]);
      assert text[1..] == line[1..] + "\n" + rest;
      SplitOneLine(acc + [line[0]], line[1..], rest);
      assert acc + [line[0]] + line[1..] == acc + line;
    }
  }

  ghost predicate AllBreakFree(lines: seq<string>) {
    forall i :: 0 <= i < |lines| ==> BreakFree(lines[i])
  }

  lemma {:induction false} SplitJoined(lines: seq<string>)
    requires AllBreakFree(lines)
    ensures SplitLines(JoinLines(lines), "") == lines
  {
    if lines != [] {
      assert BreakFree(lines[0]);
      assert forall i :: 0 <= i < |lines| - 1 ==> lines[1..][i] == lines[i + 1];
      SplitJoined(lines[1..]);
      SplitOneLine("", lines[0], JoinLines(lines[1..]));
      assert "" + lines[0] == lines[0];
      assert lines == [lines[0]] + lines[1..];
    }
  }

  lemma {:induction false} JoinedHasNoReturns(lines: seq<string>)
    requires AllBreakFree(lines)
    ensures NoReturns(JoinLines(lines))
  {
    if lines != [] {
      assert BreakFree(lines[0]);
      assert forall i :: 0 <= i < |lines| - 1 ==> lines[1..][i] == lines[i + 1];
      JoinedHasNoReturns(lines[1..]);
    }
  }

  lemma {:induction false} SplitIsBreakFree(text: string, acc: string)
    requires BreakFree(acc)
    ensures AllBreakFree(SplitLines(text, acc))
    decreases |text|
  {
    if text != "" {
      if text[0] == '\r' && |text| > 1 && text[1] == '\n' {
        SplitIsBreakFree(text[2..], "");
      } else if IsBreak(text[0]) {
        SplitIsBreakFree(text[1..], "");
      } else {
        SplitIsBreakFree(text[1..], acc + [text[0]]);
      }
    }
  }

  lemma {:induction false} ReplacedBreakFree(lines: seq<string>, key: string, value: string)
    requires AllBreakFree(lines) && BreakFree(Setting(key, value))
    ensures AllBreakFree(ReplaceAll(lines, key, value))
  {
    if lines != [] {
      var n := |lines| - 1;
      assert forall i :: 0 <= i < n ==> lines[..n][i] == lines[i];
      assert BreakFree(lines[n]);
      ReplacedBreakFree(lines[..n], key, value);
    }
  }

  function Lower(c: char): char {
    if 'A' <= c <= 'Z' then (c as int - 'A' as int + 'a' as int) as char else c
  }

  function LowerAll(s: string): string { seq(|s|, i requires 0 <= i < |s| => Lower(s[i])) }

  predicate LaneEnabled(values: map<string, string>) {
    exists k :: k in {"MESH_ARTI_ENABLED", "MESH_RNS_ENABLED"} && k in values
      && LowerAll(Strip(values[k])) in {"1", "true", "yes", "on", "allow", "enabled"}
  }

  /** The decision: None leaves the file alone, otherwise the new text. */
  function Refresh(raw: string, digest: string): Option<string> {
    var lines := SplitLines(Universal(raw), "");
    var values := ParseEnv(lines);
    if PIN_KEY !in values && !LaneEnabled(values) then None
    else if PIN_KEY in values && LowerAll(Strip(values[PIN_KEY])) == digest then None
    else Some(JoinLines(ReplaceOrAppend(lines, PIN_KEY, digest).0))
  }

  lemma LowerIdle(digest: string)
    requires IsDigest(digest)
    ensures LowerAll(digest) == digest
  {
    forall i | 0 <= i < |digest|
      ensures Lower(digest[i]) == digest[i]
    {
      assert IsHexDigit(digest[i]);
    }
  }

  lemma PinLineBreakFree(digest: string)
    requires IsDigest(digest)
    ensures BreakFree(Setting(PIN_KEY, digest))
  {
    var line := Setting(PIN_KEY, digest);
    assert forall i :: |PIN_KEY| < i < |line| ==> line[i] == digest[i - |PIN_KEY| - 1];
    assert forall i :: 0 <= i < 64 ==> IsHexDigit(digest[i]);
  }

  lemma UpdatedBreakFree(lines: seq<string>, digest: string)
    requires IsDigest(digest) && AllBreakFree(lines)
    ensures AllBreakFree(ReplaceOrAppend(lines, PIN_KEY, digest).0)
  {
    PinLineBreakFree(digest);
    ReplacedBreakFree(lines, PIN_KEY, digest);
  }

  /** After a refresh the file holds the old settings with only the pin changed, and
      running the script again changes nothing. */
  lemma RefreshOnce(raw: string, digest: string)
    requires IsDigest(digest) && Refresh(raw, digest).Some?
    ensures ParseEnv(SplitLines(Universal(Refresh(raw, digest).value), ""))
         == ParseEnv(SplitLines(Universal(raw), ""))[PIN_KEY := digest]
    ensures Refresh(Refresh(raw, digest).value, digest) == None
  {
    var lines := SplitLines(Universal(raw), "");
    var updated := ReplaceOrAppend(lines, PIN_KEY, digest).0;
    SplitIsBreakFree(Universal(raw), "");
    UpdatedBreakFree(lines, digest);
    SplitJoined(updated);
    JoinedHasNoReturns(updated);
    UniversalIdle(JoinLines(updated));
    PinKeyIsIdentifier();
    RewriteAgreesWithParser(lines, PIN_KEY, digest);
    DigestIsClean(digest);
    LowerIdle(digest);
  }

  // ------------------------------------------------------------ the loops

  method ParseEnvLines(lines: seq<string>) returns (values: map<string, string>)
    ensures values == ParseEnv(lines)
  {
    values := map[];
    for i := 0 to |lines|
      invariant values == ParseEnv(lines[..i])
    {
      assert lines[..i + 1][..i] == lines[..i];
      match MatchLine(lines[i])
      case None =>
      case Some((key, rest)) => values := values[key := Value(rest)];
    }
    assert lines[..|lines|] == lines;
  }

  method ReplaceOrAppendPin(lines: seq<string>, digest: string) returns (updated: seq<string>, replaced: bool)
    ensures (updated, replaced) == ReplaceOrAppend(lines, PIN_KEY, digest)
  {
    updated, replaced := [], false;
    for i := 0 to |lines|
      invariant updated == ReplaceAll(lines[..i], PIN_KEY, digest)
      invariant replaced == AnySets(lines[..i], PIN_KEY)
    {
      assert lines[..i + 1][..i] == lines[..i];
      if SetsKey(lines[i], PIN_KEY) {
        updated := updated + [Setting(PIN_KEY, digest)];
        replaced := true;
      } else {
        updated := updated + [lines[i]];
      }
    }
    assert lines[..|lines|] == lines;
    if !replaced {
      ReplaceNothing(lines, PIN_KEY, digest);
      assert lines + [] == lines;
      if updated != [] && Strip(updated[|updated| - 1]) != "" {
        updated := updated + [""];
      }
      updated := updated + [Setting(PIN_KEY, digest)];
    }
  }
}
