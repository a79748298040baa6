/** Running a command over GSSocket: the output of an interactive shell is cut out between two
    markers, cleaned line by line, and the exit status is read after the second marker. */
module Gsocket {
  import opened Text
  import opened Lines

  const MAX_COMMAND := 4096

  datatype Error = TooLong | TimedOut | NoAnswer | ConnectionFailed

  /** What lies between the markers, if there is a first one. */
  datatype Extracted = NotFound | Found(output: string, exitCode: int)

  datatype Result = Done(output: string, exitCode: int) | Failed(error: Error)

  // ---------- Noise ----------

  predicate IsWordChar(c: char) {
    'a' <= c <= 'z' || 'A' <= c <= 'Z' || '0' <= c <= '9' || c in "_.-"
  }

  predicate IsPatternSpace(c: char) {
    c in "\t\n\r \U{000C}"
  }

  predicate AllIn(p: char -> bool, s: string, lo: nat, hi: nat) {
    hi <= |s| && forall i :: lo <= i < hi ==> p(s[i])
  }

  predicate IsPromptTail(c: char) {
    c in ":~/$#" || IsPatternSpace(c)
  }

  /** A prompt of the form user@host followed by path and prompt signs, or a lone dollar sign. */
  predicate IsPromptLine(line: string) {
    || (exists i: nat, j: nat :: i < |line| && j < |line| && 0 < i && i + 1 < j && line[i] == '@' &&
          AllIn(IsWordChar, line, 0, i) && AllIn(IsWordChar, line, i + 1, j) && AllIn(IsPromptTail, line, j, |line|))
    || (line != "" && line[0] == '$' && AllIn(IsPatternSpace, line, 1, |line|))
  }

  function Echo(text: string): string {
    "echo '" + text + "'"
  }

  /** What the shell prints besides the command's output. */
  predicate IsNoise(trimmed: string, startM: string, endM: string, command: string) {
    || trimmed == "export TERM=dumb"
    || trimmed == "unset PS1"
    || "stty " <= trimmed
    || trimmed == Echo(startM)
    || Echo(endM) <= trimmed
    || trimmed == command
    || trimmed == "exit"
    || IsPromptLine(trimmed)
  }

  predicate IsKept(line: string, startM: string, endM: string, command: string) {
    Trim(line) != "" && !IsNoise(Trim(line), startM, endM, command)
  }

  // ---------- Cleaning ----------

  function KeptLines(lines: seq<string>, startM: string, endM: string, command: string): seq<string> {
    if lines == [] then []
    else
      var rest := KeptLines(lines[1..], startM, endM, command);
      if IsKept(lines[0], startM, endM, command) then [lines[0]] + rest else rest
  }

  function Clean(output: string, startM: string, endM: string, command: string): string {
    Trim(Join(KeptLines(Split(output), startM, endM, command)))
  }

  lemma {:induction false} KeptAppend(lines: seq<string>, line: string, startM: string, endM: string, command: string)
    ensures KeptLines(lines + [line], startM, endM, command) ==
            KeptLines(lines, startM, endM, command) + if IsKept(line, startM, endM, command) then [line] else []
  {
    if lines == [] {
      assert lines + [line] == [line];
    } else {
      assert (lines + [line])[1..] == lines[1..] + [line];
      KeptAppend(lines[1..], line, startM, endM, command);
    }
  }

  /** Letters, digits and the signs of user and host names. */
  predicate IsName(s: string) {
    s != "" && forall c :: c in s ==>
      'a' <= c <= 'z' || 'A' <= c <= 'Z' || '0' <= c <= '9' || c == '_' || c == '.' || c == '-'
  }

  predicate IsGap(s: string) {
    forall c :: c in s ==> c == ' ' || c == '\t' || c == '\n' || c == '\r' || c == '\U{000C}'
  }

  predicate IsTail(s: string) {
    s != "" && forall c :: c in s ==> IsGap([c]) || c == ':' || c == '~' || c == '/' || c == '$' || c == '#'
  }

  /** A prompt: user and host with signs after them, or a lone dollar sign. */
  ghost predicate PromptShape(t: string) {
    || (exists user, host, tail :: t == user + "@" + host + tail && IsName(user) && IsName(host) && IsTail(tail))
    || (exists gap :: t == "$" + gap && IsGap(gap))
  }

  lemma PromptOfParts(t: string, user: string, host: string, tail: string)
    requires t == user + "@" + host + tail && IsName(user) && IsName(host) && IsTail(tail)
    ensures IsPromptLine(t)
  {
    var i, j := |user|, |user| + 1 + |host|;
    assert forall k :: 0 <= k < i ==> t[k] == user[k] && user[k] in user;
    assert forall k :: i + 1 <= k < j ==> t[k] == host[k - i - 1] && host[k - i - 1] in host;
    forall k | j <= k < |t| ensures IsPromptTail(t[k]) {
      assert t[k] == tail[k - j] && tail[k - j] in tail;
      assert IsGap([t[k]]) ==> t[k] in [t[k]];
    }
    assert t[i] == '@' && AllIn(IsWordChar, t, 0, i) && AllIn(IsWordChar, t, i + 1, j) && AllIn(IsPromptTail, t, j, |t|);
  }

  lemma PartsOfPrompt(t: string, i: nat, j: nat) returns (user: string, host: string, tail: string)
    requires 0 < i && i + 1 < j < |t| && t[i] == '@'
    requires AllIn(IsWordChar, t, 0, i) && AllIn(IsWordChar, t, i + 1, j) && AllIn(IsPromptTail, t, j, |t|)
    ensures t == user + "@" + host + tail && IsName(user) && IsName(host) && IsTail(tail)
  {
    user, host, tail := t[..i], t[i + 1..j], t[j..];
  }

  /** The two patterns for prompts match exactly these lines. */
  lemma PromptIff(t: string)
    ensures IsPromptLine(t) <==> PromptShape(t)
  {
    if user, host, tail :| t == user + "@" + host + tail && IsName(user) && IsName(host) && IsTail(tail) {
      PromptOfParts(t, user, host, tail);
    }
    if i: nat, j: nat :| (i < |t| && j < |t| && 0 < i && i + 1 < j && t[i] == '@'
                          && AllIn(IsWordChar, t, 0, i) && AllIn(IsWordChar, t, i + 1, j) && AllIn(IsPromptTail, t, j, |t|)) {
      var user, host, tail := PartsOfPrompt(t, i, j);
    }
    DollarIff(t);
  }

  lemma DollarIff(t: string)
    ensures (t != "" && t[0] == '$' && AllIn(IsPatternSpace, t, 1, |t|)) <==> exists gap :: t == "$" + gap && IsGap(gap)
  {
    if gap :| t == "$" + gap && IsGap(gap) {
      assert forall k :: 1 <= k < |t| ==> t[k] == gap[k - 1] && gap[k - 1] in gap;
    }
    if t != "" && t[0] == '$' && AllIn(IsPatternSpace, t, 1, |t|) {
      assert t == "$" + t[1..] && IsGap(t[1..]);
    }
  }

  /** Lines are kept or dropped one by one.  Those go that are, without the white space around them,
      empty, a line of the script or its echo, the command itself, or a prompt; all others stay. */
  lemma WhichLinesGo(line: string, startM: string, endM: string, command: string)
    ensures var t := Trim(line);
            KeptLines([line], startM, endM, command) ==
            if || t == "" || t == "export TERM=dumb" || t == "unset PS1" || t == "exit" || t == command
               || t == "echo '" + startM + "'" || "stty " <= t || "echo '" + endM + "'" <= t
               || PromptShape(t)
            then [] else [line]
  {
    PromptIff(Trim(line));
  }

  lemma KeptOneByOne(lines: seq<string>, line: string, startM: string, endM: string, command: string)
    ensures KeptLines(lines + [line], startM, endM, command) ==
            KeptLines(lines, startM, endM, command) + KeptLines([line], startM, endM, command)
  {
    KeptAppend(lines, line, startM, endM, command);
  }

  method CleanLines(output: string, startM: string, endM: string, command: string) returns (clean: seq<string>)
    ensures clean == KeptLines(Split(output), startM, endM, command)
  {
    var lines := Split(output);
    clean := [];
    for i := 0 to |lines|
      invariant clean == KeptLines(lines[..i], startM, endM, command)
    {
      assert lines[..i + 1] == lines[..i] + [lines[i]];
      KeptAppend(lines[..i], lines[i], startM, endM, command);
      var trimmed := Trim(lines[i]);
      if trimmed == "" { continue; }
      if trimmed == "export TERM=dumb" { continue; }
      if trimmed == "unset PS1" { continue; }
      if "stty " <= trimmed { continue; }
      if trimmed == Echo(startM) { continue; }
      if Echo(endM) <= trimmed { continue; }
      if trimmed == command { continue; }
      if trimmed == "exit" { continue; }
      if IsPromptLine(trimmed) { continue; }
      clean := clean + [lines[i]];
    }
    assert lines[..|lines|] == lines;
  }

  method CleanOutput(output: string, startM: string, endM: string, command: string) returns (text: string)
    ensures text == Clean(output, startM, endM, command)
  {
    var clean := CleanLines(output, startM, endM, command);
    text := Trim(Join(clean));
  }

  lemma {:induction false} KeptAll(lines: seq<string>, startM: string, endM: string, command: string)
    requires forall l :: l in lines ==> IsKept(l, startM, endM, command)
    ensures KeptLines(lines, startM, endM, command) == lines
  {
    if lines != [] {
      KeptAll(lines[1..], startM, endM, command);
    }
  }

  lemma {:induction false} KeptFrom(lines: seq<string>, startM: string, endM: string, command: string)
    ensures forall l :: l in KeptLines(lines, startM, endM, command) ==> l in lines && IsKept(l, startM, endM, command)
  {
    if lines != [] {
      KeptFrom(lines[1..], startM, endM, command);
    }
  }

  /** Lines of which the first has lost its leading and the last its trailing space. */
  function TrimEnds(lines: seq<string>): seq<string>
    requires lines != []
  {
    var right := lines[|lines| - 1 := TrimRight(lines[|lines| - 1])];
    right[0 := TrimLeft(right[0])]
  }

  lemma JoinTrimRight(lines: seq<string>)
    requires lines != [] && !Blank(lines[|lines| - 1])
    ensures TrimRight(Join(lines)) == Join(lines[|lines| - 1 := TrimRight(lines[|lines| - 1])])
  {
    var n := |lines| - 1;
    var init, last := lines[..n], lines[n];
    assert lines == init + [last];
    assert lines[n := TrimRight(last)] == init + [TrimRight(last)];
    if init != [] {
      JoinLast(init, last);
      JoinLast(init, TrimRight(last));
      TrimRightConcat(Join(init) + "\n", last);
    }
  }

  lemma JoinTrimLeft(lines: seq<string>)
    requires lines != [] && !Blank(lines[0])
    ensures TrimLeft(Join(lines)) == Join(lines[0 := TrimLeft(lines[0])])
  {
    if |lines| > 1 {
      assert Join(lines) == lines[0] + ("\n" + Join(lines[1..]));
      TrimLeftConcat(lines[0], "\n" + Join(lines[1..]));
      assert lines[0 := TrimLeft(lines[0])][1..] == lines[1..];
      assert Join(lines[0 := TrimLeft(lines[0])]) == TrimLeft(lines[0]) + ("\n" + Join(lines[1..]));
    }
  }

  /** Trimming joined lines that are not blank trims the two ends and nothing else. */
  lemma JoinTrim(lines: seq<string>)
    requires lines != [] && forall l :: l in lines ==> !Blank(l)
    ensures Trim(Join(lines)) == Join(TrimEnds(lines))
  {
    JoinTrimRight(lines);
    TrimRightBlank(lines[|lines| - 1]);
    JoinTrimLeft(lines[|lines| - 1 := TrimRight(lines[|lines| - 1])]);
  }

  /** Trimming the ends changes no line's trimmed text and adds no character. */
  lemma {:induction false} TrimEndsLines(lines: seq<string>)
    requires lines != []
    ensures |TrimEnds(lines)| == |lines|
    ensures forall i :: 0 <= i < |lines| ==> Trim(TrimEnds(lines)[i]) == Trim(lines[i])
    ensures (forall l :: l in lines ==> '\n' !in l) ==> forall l :: l in TrimEnds(lines) ==> '\n' !in l
  {
    var n := |lines| - 1;
    var right := lines[n := TrimRight(lines[n])];
    TrimAbsorbs(lines[n]);
    TrimRightChars(lines[n]);
    TrimAbsorbs(right[0]);
    TrimLeftBlank(right[0]);
    assert forall i :: 0 <= i < |lines| ==> lines[i] in lines;
  }

  lemma KeptNotBlank(lines: seq<string>, startM: string, endM: string, command: string)
    requires forall l :: l in lines ==> IsKept(l, startM, endM, command)
    ensures forall l :: l in lines ==> !Blank(l)
  {
    forall l | l in lines ensures !Blank(l) {
      TrimRightBlank(l);
    }
  }

  /** The lines of cleaned output are exactly the lines that are neither blank nor noise, in
      order, with the first one's leading and the last one's trailing space gone. */
  lemma {:induction false} CleanedLines(output: string, startM: string, endM: string, command: string)
    ensures var kept := KeptLines(Split(output), startM, endM, command);
            Split(Clean(output, startM, endM, command)) == if kept == [] then [""] else TrimEnds(kept)
  {
    var kept := KeptLines(Split(output), startM, endM, command);
    KeptFrom(Split(output), startM, endM, command);
    if kept != [] {
      KeptNotBlank(kept, startM, endM, command);
      JoinTrim(kept);
      TrimEndsLines(kept);
      SplitJoin(TrimEnds(kept));
    }
  }

  /** Cleaning cleaned output changes nothing. */
  lemma CleanIdempotent(output: string, startM: string, endM: string, command: string)
    ensures var once := Clean(output, startM, endM, command);
            Clean(once, startM, endM, command) == once
  {
    var kept := KeptLines(Split(output), startM, endM, command);
    var once := Clean(output, startM, endM, command);
    CleanedLines(output, startM, endM, command);
    if kept == [] {
      assert Split(once) == [""];
      assert KeptLines([""], startM, endM, command) == [];
    } else {
      var ends := TrimEnds(kept);
      KeptFrom(Split(output), startM, endM, command);
      KeptNotBlank(kept, startM, endM, command);
      TrimEndsLines(kept);
      forall l | l in ends ensures IsKept(l, startM, endM, command) {
        var i :| 0 <= i < |ends| && ends[i] == l;
        assert Trim(l) == Trim(kept[i]) && kept[i] in kept;
      }
      KeptAll(ends, startM, endM, command);
      JoinTrim(kept);
      TrimAbsorbs(Join(kept));
    }
  }

  // ---------- Framing ----------

  function StartMarker(id: string): string {
    "VPCMD_S_" + id
  }

  function EndMarker(id: string): string {
    "VPCMD_E_" + id
  }

  /** Marker ids are printed in hexadecimal. */
  predicate IsHex(id: string) {
    forall c :: c in id ==> IsDigit(c) || 'a' <= c <= 'f'
  }

  lemma MarkersHeadUnique(id: string)
    requires IsHex(id)
    ensures HeadUnique(StartMarker(id)) && HeadUnique(EndMarker(id))
  {
    forall k | 0 < k < |StartMarker(id)| ensures StartMarker(id)[k] != 'V' && EndMarker(id)[k] != 'V' {
      if k >= 8 {
        assert StartMarker(id)[k] == id[k - 8] && EndMarker(id)[k] == id[k - 8] && id[k - 8] in id;
      } else {
        assert StartMarker(id)[k] == "VPCMD_S_"[k] && EndMarker(id)[k] == "VPCMD_E_"[k];
      }
    }
  }

  lemma {:induction false} RemoveNothing(s: string, m: string)
    requires m != "" && !Contains(s, m)
    ensures RemoveAll(s, m) == s
  {
    if s != "" {
      if m <= s {
        assert OccursAt(s, m, 0);
      }
      if Contains(s[1..], m) {
        var i: nat :| OccursAt(s[1..], m, i);
        assert OccursAt(s, m, i + 1);
      }
      RemoveNothing(s[1..], m);
    }
  }

  /** A command that does not contain the marker prefixes is run as it is. */
  lemma SanitizeKeeps(command: string)
    requires !Contains(command, "VPCMD_S_") && !Contains(command, "VPCMD_E_")
    ensures Sanitize(command) == command
  {
    RemoveNothing(command, "VPCMD_S_");
    RemoveNothing(command, "VPCMD_E_");
  }

  lemma RemoveStep(s: string, m: string)
    requires m != "" && s != "" && !OccursAt(s, m, 0)
    ensures RemoveAll(s, m) == [s[0]] + RemoveAll(s[1..], m)
  {
  }

  lemma RemoveHead(m: string, b: string)
    requires m != ""
    ensures RemoveAll(m + b, m) == RemoveAll(b, m)
  {
    assert m <= m + b && (m + b)[|m|..] == b;
  }

  lemma TailContains(s: string, m: string)
    requires s != "" && Contains(s[1..], m)
    ensures Contains(s, m)
  {
    var i: nat :| OccursAt(s[1..], m, i);
    assert OccursAt(s, m, i + 1);
  }

  lemma NotAtStart(a: string, m: string, b: string)
    requires HeadUnique(m) && !Contains(a, m) && a != ""
    ensures !OccursAt(a + m + b, m, 0)
  {
    MarkerFound(a, m, b);
    IndexFromIsFirst(a + m + b, m, 0);
  }

  lemma Reattach(a: string, t: string)
    requires a != ""
    ensures [a[0]] + (a[1..] + t) == a + t
  {
  }

  /** The first occurrence of a marker goes, and the rest is treated likewise. */
  lemma {:induction false} RemoveFirst(a: string, m: string, b: string)
    requires HeadUnique(m) && !Contains(a, m)
    ensures RemoveAll(a + m + b, m) == a + RemoveAll(b, m)
    decreases |a|
  {
    var s := a + m + b;
    if a == "" {
      assert s == m + b;
      RemoveHead(m, b);
    } else {
      NotAtStart(a, m, b);
      RemoveStep(s, m);
      if Contains(a[1..], m) {
        TailContains(a, m);
      }
      RemoveFirst(a[1..], m, b);
      calc {
        RemoveAll(s, m);
        [s[0]] + RemoveAll(s[1..], m);
        { assert s[1..] == a[1..] + m + b && s[0] == a[0]; }
        [a[0]] + RemoveAll(a[1..] + m + b, m);
        [a[0]] + (a[1..] + RemoveAll(b, m));
        { Reattach(a, RemoveAll(b, m)); }
        a + RemoveAll(b, m);
      }
    }
  }

  const START_PREFIX := "VPCMD_S_"
  const END_PREFIX := "VPCMD_E_"

  lemma Differs(s: string, m: string, j: nat, k: nat)
    requires k < |m| && j + k < |s| && s[j + k] != m[k]
    ensures !OccursAt(s, m, j)
  {
  }

  /** A prefix of the other kind neither contains the one nor completes it. */
  lemma NoOtherPrefix(a: string, b: string)
    requires !Contains(a, START_PREFIX) && !Contains(b, START_PREFIX)
    ensures !Contains(a + END_PREFIX + b, START_PREFIX)
  {
    var s := a + END_PREFIX + b;
    assert s[|a|] == END_PREFIX[0] && s[|a| + 6] == END_PREFIX[6];
    forall j: nat ensures !OccursAt(s, START_PREFIX, j) {
      if j + 8 <= |a| {
        assert s == a + (END_PREFIX + b);
        if OccursAt(s, START_PREFIX, j) { OccursInside(a, END_PREFIX + b, START_PREFIX, j); }
      } else if j < |a| {
        Differs(s, START_PREFIX, j, |a| - j);
      } else if j == |a| {
        Differs(s, START_PREFIX, j, 6);
      } else if j < |a| + 8 {
        assert s[j] == END_PREFIX[j - |a|];
        Differs(s, START_PREFIX, j, 0);
      } else {
        assert OccursAt(s, START_PREFIX, j) ==> OccursAt(b, START_PREFIX, j - |a| - 8);
      }
    }
  }

  /** A marker prefix in a command is taken out, whichever of the two it is. */
  lemma SanitizeRemoves(a: string, b: string)
    requires !Contains(a, START_PREFIX) && !Contains(b, START_PREFIX)
    requires !Contains(a, END_PREFIX) && !Contains(b, END_PREFIX) && !Contains(a + b, END_PREFIX)
    ensures Sanitize(a + START_PREFIX + b) == a + b
    ensures Sanitize(a + END_PREFIX + b) == a + b
  {
    assert HeadUnique(START_PREFIX) && HeadUnique(END_PREFIX);
    RemoveFirst(a, START_PREFIX, b);
    RemoveNothing(b, START_PREFIX);
    RemoveNothing(a + b, END_PREFIX);
    NoOtherPrefix(a, b);
    RemoveNothing(a + END_PREFIX + b, START_PREFIX);
    RemoveFirst(a, END_PREFIX, b);
    RemoveNothing(b, END_PREFIX);
  }

  predicate FitsInt(v: int) {
    -0x8000_0000_0000_0000 <= v < 0x8000_0000_0000_0000
  }

  /** The status is the number on the rest of the second marker's line, and zero without one. */
  function ExitCode(after: string): int {
    match ScanInt(Trim(Split(after)[0]))
    case Some(v) => if FitsInt(v) then v else 0
    case None => 0
  }

  /** Removing every occurrence of a text, from left to right in one pass. */
  function RemoveAll(s: string, m: string): string
    requires m != ""
  {
    if s == "" then ""
    else if m <= s then RemoveAll(s[|m|..], m)
    else [s[0]] + RemoveAll(s[1..], m)
  }

  function Sanitize(command: string): string {
    RemoveAll(RemoveAll(command, "VPCMD_S_"), "VPCMD_E_")
  }

  /** The text before and after the first occurrence of a marker. */
  function Cut(s: string, m: string): Option<(string, string)> {
    match Index(s, m)
    case None => None
    case Some(i) => Some((s[..i], s[i + |m|..]))
  }

  /** Everything up to the second marker and the status after it; without that marker the shell
      was cut off, everything is output and the status is zero. */
  function Divide(content: string, endM: string): Extracted {
    match Cut(content, endM)
    case None => Found(content, 0)
    case Some((output, after)) => Found(output, ExitCode(after))
  }

  function Between(raw: string, startM: string, endM: string): Extracted {
    match Cut(raw, startM)
    case None => NotFound
    case Some((_, content)) => Divide(content, endM)
  }

  /** What is made of the shell's output, colour codes already stripped. */
  function Extract(raw: string, startM: string, endM: string, command: string): Extracted {
    match Between(raw, startM, endM)
    case NotFound => NotFound
    case Found(output, exitCode) => Found(Clean(output, startM, endM, command), exitCode)
  }

  method CutAt(s: string, m: string) returns (r: Option<(string, string)>)
    ensures r == Cut(s, m)
  {
    var i := Index(s, m);
    if i.None? { return None; }
    return Some((s[..i.value], s[i.value + |m|..]));
  }

  method FindBetween(raw: string, startM: string, endM: string) returns (r: Extracted)
    ensures r == Between(raw, startM, endM)
  {
    var start := CutAt(raw, startM);
    if start.None? { return NotFound; }
    var content := start.value.1;
    var end := CutAt(content, endM);
    if end.None? { return Found(content, 0); }
    return Found(end.value.0, ExitCode(end.value.1));
  }

  /** The error output speaks of a connection that is still being made. */
  ghost predicate IsWaiting(stderr: string) {
    Contains(stderr, "takes longer") || Contains(stderr, "Connecting")
  }

  /** `stdout` and `stderr` are what the shell has printed, and `strip` takes colour codes out. */
  method GSocketExecute(command: string, id: string, timedOut: bool, stdout: string, stderr: string, strip: string -> string)
    returns (r: Result)
    ensures Size(command) > 4096 ==> r == Failed(TooLong)
    ensures Size(command) <= 4096 && timedOut ==> r == Failed(TimedOut)
    ensures Size(command) <= 4096 && !timedOut ==>
              match Extract(strip(stdout), StartMarker(id), EndMarker(id), Sanitize(command))
              case NotFound => r == Failed(if IsWaiting(stderr) then NoAnswer else ConnectionFailed)
              case Found(output, exitCode) => r == Done(output, exitCode)
    ensures r.Failed? && r.error in {NoAnswer, ConnectionFailed} <==>
              Size(command) <= 4096 && !timedOut && !Contains(strip(stdout), StartMarker(id))
  {
    if Size(command) > MAX_COMMAND { return Failed(TooLong); }
    if timedOut { return Failed(TimedOut); }
    var startM, endM := StartMarker(id), EndMarker(id);
    var raw := strip(stdout);
    var found := FindBetween(raw, startM, endM);
    IndexFinds(raw, startM);
    if found.NotFound? {
      IndexFinds(stderr, "takes longer");
      IndexFinds(stderr, "Connecting");
      if Index(stderr, "takes longer").Some? || Index(stderr, "Connecting").Some? { return Failed(NoAnswer); }
      return Failed(ConnectionFailed);
    }
    var output := CleanOutput(found.output, startM, endM, Sanitize(command));
    return Done(output, found.exitCode);
  }

  lemma TrimPadded(s: string, pad: string)
    requires Blank(pad) && s != "" && !IsSpace(s[0]) && !IsSpace(s[|s| - 1])
    ensures Trim(s + pad) == s
  {
    TrimRightConcat(s, pad);
  }

  lemma DigitIsNoSpace(c: char)
    requires IsDigit(c) || c == '-'
    ensures !IsSpace(c) && c != '\n'
  {
  }

  lemma IntTextSolid(n: int)
    ensures var s := IntText(n); s != "" && !IsSpace(s[0]) && !IsSpace(s[|s| - 1]) && '\n' !in s
  {
    var s := IntText(n);
    IntTextChars(n);
    assert s[0] in s && s[|s| - 1] in s;
    DigitIsNoSpace(s[0]);
    DigitIsNoSpace(s[|s| - 1]);
    forall c | c in s ensures c != '\n' { DigitIsNoSpace(c); }
  }

  lemma ExitCodeRead(code: int, pad: string, rest: string)
    requires 0 <= code < 256 && Blank(pad) && '\n' !in pad
    ensures ExitCode(IntText(code) + pad + "\n" + rest) == code
  {
    var s := IntText(code);
    IntTextSolid(code);
    SplitFirst(s + pad, rest);
    TrimPadded(s, pad);
    ScanIntText(code, "");
    assert s + "" == s;
  }

  /** The two cuts are made at the markers put there exactly if the text before the first marker
      does not contain it and the output does not contain the second. */
  lemma CutsIff(before: string, startM: string, output: string, endM: string, after: string)
    requires HeadUnique(startM) && HeadUnique(endM)
    ensures var content := output + endM + after;
            Cut(before + startM + content, startM) == Some((before, content)) && Cut(content, endM) == Some((output, after)) <==>
            !Contains(before, startM) && !Contains(output, endM)
  {
    CutIff(before, startM, output + endM + after);
    CutIff(output, endM, after);
  }

  lemma CutIff(a: string, m: string, b: string)
    requires HeadUnique(m)
    ensures Cut(a + m + b, m) == Some((a, b)) <==> !Contains(a, m)
  {
    var s := a + m + b;
    MarkerFoundIff(a, m, b);
    assert s[..|a|] == a && s[|a| + |m|..] == b;
    if Cut(s, m) == Some((a, b)) {
      assert |s[..Index(s, m).value]| == |a|;
    }
  }

  /** The framing is undone: the real output and status are cut out exactly if the command's output
      does not contain the second marker, given that the text before the first does not contain
      that; then the answer is the cleaned output and the status, whatever the shell prints after
      it. */
  lemma FramingRoundTrip(id: string, command: string, before: string, output: string, code: int, pad: string, rest: string)
    requires IsHex(id) && !Contains(before, StartMarker(id))
    requires 0 <= code < 256 && Blank(pad) && '\n' !in pad
    ensures var raw := before + StartMarker(id) + (output + EndMarker(id) + (IntText(code) + pad + "\n" + rest));
            && (Between(raw, StartMarker(id), EndMarker(id)) == Found(output, code) <==> !Contains(output, EndMarker(id)))
            && (!Contains(output, EndMarker(id)) ==>
                  Extract(raw, StartMarker(id), EndMarker(id), command) == Found(Clean(output, StartMarker(id), EndMarker(id), command), code))
  {
    var after := IntText(code) + pad + "\n" + rest;
    var content := output + EndMarker(id) + after;
    MarkersHeadUnique(id);
    CutIff(before, StartMarker(id), content);
    assert Between(before + StartMarker(id) + content, StartMarker(id), EndMarker(id)) == Divide(content, EndMarker(id));
    ExitCodeRead(code, pad, rest);
    if Contains(output, EndMarker(id)) {
      FirstCutShort(output, EndMarker(id), after);
    } else {
      CutIff(output, EndMarker(id), after);
    }
  }

  /** Without the second marker everything after the first is output, with status zero. */
  lemma EndMissing(id: string, before: string, content: string)
    requires IsHex(id) && !Contains(before, StartMarker(id)) && !Contains(content, EndMarker(id))
    ensures Between(before + StartMarker(id) + content, StartMarker(id), EndMarker(id)) == Found(content, 0)
  {
    MarkersHeadUnique(id);
    CutIff(before, StartMarker(id), content);
    IndexFinds(content, EndMarker(id));
  }

  /** Output that contains the marker is cut at its first occurrence. */
  lemma FirstCutShort(a: string, m: string, b: string)
    requires Contains(a, m) && m != ""
    ensures var c := Cut(a + m + b, m);
            c.Some? && |c.value.0| < |a| && c.value.0 == a[..|c.value.0|] && !Contains(c.value.0, m)
  {
    var s := a + m + b;
    var j: nat :| OccursAt(a, m, j);
    assert OccursAt(s, m, j);
    IndexFinds(s, m);
    CutHasNone(s, m);
    IndexFromIsFirst(s, m, 0);
  }

  /** What is cut off before a marker does not contain it. */
  lemma CutHasNone(s: string, m: string)
    requires m != "" && Cut(s, m).Some?
    ensures !Contains(Cut(s, m).value.0, m)
  {
    IndexFromIsFirst(s, m, 0);
    var front := Cut(s, m).value.0;
    if Contains(front, m) {
      var j: nat :| OccursAt(front, m, j);
      assert OccursAt(s, m, j);
    }
  }

  /** When the shell echoes the command that prints the second marker, with a quote after it,
      before the marker itself comes, the output ends at the echo and the status is always zero,
      whatever follows. */
  lemma EndEchoed(id: string, before: string, output: string, rest: string)
    requires IsHex(id) && !Contains(before, StartMarker(id)) && !Contains(output, EndMarker(id))
    ensures Between(before + StartMarker(id) + (output + EndMarker(id) + ("'" + rest)), StartMarker(id), EndMarker(id)) ==
            Found(output, 0)
  {
    MarkersHeadUnique(id);
    CutsIff(before, StartMarker(id), output, EndMarker(id), "'" + rest);
    QuoteIsNoStatus(rest);
  }

  lemma QuoteIsNoStatus(rest: string)
    ensures ExitCode("'" + rest) == 0
  {
    var line := Split("'" + rest)[0];
    assert line[0] == '\'';
    TrimKeepsFirst(line);
  }

  lemma TrimKeepsFirst(s: string)
    requires s != "" && !IsSpace(s[0])
    ensures Trim(s) != "" && Trim(s)[0] == s[0]
  {
    TrimCommutes(s);
    TrimRightFirst(s);
  }

  lemma {:induction false} TrimRightFirst(s: string)
    requires s != "" && !IsSpace(s[0])
    ensures TrimRight(s) != "" && TrimRight(s)[0] == s[0]
  {
    if IsSpace(s[|s| - 1]) {
      TrimRightFirst(s[..|s| - 1]);
    }
  }

  /** What is extracted never contains the second marker, and so the filter for its echo never
      applies to a line of it. */
  lemma EndFilterNeverApplies(raw: string, startM: string, endM: string)
    requires endM != "" && Between(raw, startM, endM).Found?
    ensures var output := Between(raw, startM, endM).output;
            && !Contains(output, endM)
            && forall l :: l in Split(output) ==> !(Echo(endM) <= Trim(l))
  {
    var content := Cut(raw, startM).value.1;
    var output := Between(raw, startM, endM).output;
    IndexFinds(content, endM);
    if Cut(content, endM).Some? {
      CutHasNone(content, endM);
    }
    forall l | l in Split(output) ensures !(Echo(endM) <= Trim(l)) {
      if Echo(endM) <= Trim(l) {
        assert OccursAt(Trim(l), endM, 6);
        TrimInside(l, endM);
        SplitInside(output, l, endM);
      }
    }
  }

  lemma TrimInside(s: string, m: string)
    requires Contains(Trim(s), m)
    ensures Contains(s, m)
  {
    var l, r := TrimParts(s);
    var i: nat :| OccursAt(Trim(s), m, i);
    assert OccursAt(l + Trim(s) + r, m, |l| + i);
  }

  lemma {:induction false} SplitInside(s: string, l: string, m: string)
    requires l in Split(s) && Contains(l, m)
    ensures Contains(s, m)
  {
    var i: nat :| OccursAt(l, m, i);
    if s == "" {
      assert l == "";
      assert OccursAt(s, m, i);
    } else {
      var rest := Split(s[1..]);
      if l in rest[if s[0] == '\n' then 0 else 1..] {
        SplitInside(s[1..], l, m);
        var j: nat :| OccursAt(s[1..], m, j);
        assert OccursAt(s, m, j + 1);
      } else if s[0] == '\n' {
        assert l == "";
        assert OccursAt(s, m, i);
      } else {
        assert l == [s[0]] + rest[0];
        SplitPrefix(s[1..]);
        assert OccursAt(s, m, i);
      }
    }
  }

  lemma {:induction false} SplitPrefix(s: string)
    ensures Split(s)[0] <= s
  {
    if s != "" && s[0] != '\n' {
      SplitPrefix(s[1..]);
    }
  }
}
