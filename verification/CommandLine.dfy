/** Building the kernel command line: xbc_snprint_cmdline, xbc_make_cmdline and setup_command_line in
    Kernel/Init/main.c.  Buffers are arrays, strings are NUL-terminated in them. */
module CommandLine {
  import opened Common
  import opened TextWords

  const NUL := '\0'

  ghost predicate NoNul(s: string) {
    NUL !in s
  }

  function Least(a: nat, b: nat): nat {
    if a <= b then a else b
  }

  /** The buffer holds s as a C string. */
  ghost predicate Holds(buf: seq<char>, s: string) {
    |s| < |buf| && buf[..|s|] == s && buf[|s|] == NUL
  }

  // ----- printing into a bounded buffer

  /** Byte i of a buffer of which size bytes may be used, after r was printed into it. */
  function PrintedChar(before: seq<char>, size: nat, r: string, i: nat): char
    requires size <= |before| && i < |before|
  {
    if size == 0 || r == [] then before[i]
    else
      var m := Least(|r|, size - 1);
      if i < m then r[i] else if i == m then NUL else before[i]
  }

  /** The whole buffer after that. */
  ghost predicate IsPrinted(now: seq<char>, before: seq<char>, size: nat, r: string) {
    && size <= |before| == |now|
    && forall i :: 0 <= i < |now| ==> now[i] == PrintedChar(before, size, r, i)
  }

  /** snprintf(buf + pos, rest(buf + pos, buf + end), ...) for an already formatted text. */
  method Snprintf(buf: array<char>, pos: nat, end: nat, s: string) returns (ret: nat)
    requires end <= buf.Length
    modifies buf
    ensures ret == |s|
    ensures pos >= end ==> buf[..] == old(buf[..])
    ensures pos < end ==> Overwritten(old(buf[..]), buf[..], pos, s, Least(|s|, end - pos - 1))
  {
    ret := |s|;
    if pos < end {
      var n := Least(|s|, end - pos - 1);
      var i := 0;
      while i < n
        invariant i <= n
        invariant forall j :: 0 <= j < buf.Length ==> buf[j] == if pos <= j < pos + i then s[j - pos] else old(buf[j])
      {
        buf[pos + i] := s[i];
        i := i + 1;
      }
      buf[pos + n] := NUL;
    }
  }

  /** The first n characters of s and a NUL went to pos, and everything else is as before. */
  ghost predicate Overwritten(before: seq<char>, now: seq<char>, pos: nat, s: string, n: nat) {
    && |now| == |before| && pos + n < |before| && n <= |s|
    && forall j :: 0 <= j < |now| ==>
                     now[j] == if pos <= j < pos + n then s[j - pos] else if j == pos + n then NUL else before[j]
  }

  /** Printing on from where the last print ended is printing everything at once. */
  lemma PrintedOn(before: seq<char>, size: nat, r: string, prior: seq<char>, s: string, now: seq<char>)
    requires IsPrinted(prior, before, size, r) && s != []
    requires if |r| >= size then now == prior else Overwritten(prior, now, |r|, s, Least(|s|, size - |r| - 1))
    ensures IsPrinted(now, before, size, r + s)
  {
  }

  // ----- bootconfig keys and values

  /** A key below the printed node with its values; composeError is the negative result of
      xbc_node_compose_key_after if the key does not fit its buffer. */
  datatype KeyValue = KeyValue(composeError: int, key: string, values: seq<string>)

  function RenderValue(key: string, value: string): string {
    key + "=\"" + value + "\" "
  }

  function RenderValues(key: string, values: seq<string>): string {
    if values == [] then [] else RenderValues(key, values[..|values| - 1]) + RenderValue(key, values[|values| - 1])
  }

  function RenderOne(e: KeyValue): string {
    if e.values == [] then e.key + " " else RenderValues(e.key, e.values)
  }

  /** The first n texts in a row. */
  function Joined(texts: seq<string>, n: nat): string
    requires n <= |texts|
  {
    if n == 0 then [] else Joined(texts, n - 1) + texts[n - 1]
  }

  /** What each key is printed as. */
  function Texts(entries: seq<KeyValue>): (texts: seq<string>)
    ensures |texts| == |entries| && AreTexts(entries, texts)
  {
    seq(|entries|, i requires 0 <= i < |entries| => RenderOne(entries[i]))
  }

  predicate IsText(e: KeyValue, text: string) {
    text == RenderOne(e)
  }

  ghost predicate AreTexts(entries: seq<KeyValue>, texts: seq<string>) {
    && |texts| == |entries|
    && forall i {:trigger IsText(entries[i], texts[i])} :: 0 <= i < |entries| ==> IsText(entries[i], texts[i])
  }

  /** The command line for the keys. */
  function Render(entries: seq<KeyValue>): string {
    Joined(Texts(entries), |entries|)
  }

  ghost predicate Composable(entries: seq<KeyValue>) {
    forall i :: 0 <= i < |entries| ==> entries[i].composeError >= 0
  }

  /** One print of the loops below: print s at pos, then move pos on by the value returned. */
  method PrintOn(buf: array<char>, pos: nat, end: nat, s: string, ghost before: seq<char>, ghost done: string)
    returns (next: nat)
    requires end <= buf.Length == |before| && IsPrinted(buf[..], before, end, done) && pos == |done| && s != []
    modifies buf
    ensures next == |done + s| && IsPrinted(buf[..], before, end, done + s)
  {
    ghost var prior := buf[..];
    var ret := Snprintf(buf, pos, end, s);
    PrintedOn(before, end, done, prior, s, buf[..]);
    next := pos + ret;
  }

  /** The inner loop, over the values of one key. */
  method SnprintValues(buf: array<char>, start: nat, size: nat, e: KeyValue, ghost before: seq<char>, ghost done: string)
    returns (pos: nat)
    requires size <= buf.Length == |before| && IsPrinted(buf[..], before, size, done) && start == |done|
    modifies buf
    ensures pos == |done + RenderValues(e.key, e.values)|
    ensures IsPrinted(buf[..], before, size, done + RenderValues(e.key, e.values))
  {
    pos := start;
    ghost var sofar := done;
    var v := 0;
    assert done + RenderValues(e.key, e.values[..0]) == done;
    while v < |e.values|
      invariant v <= |e.values| && sofar == done + RenderValues(e.key, e.values[..v])
      invariant pos == |sofar| && IsPrinted(buf[..], before, size, sofar)
    {
      var text := RenderValue(e.key, e.values[v]);
      pos := PrintOn(buf, pos, size, text, before, sofar);
      RenderNext(e.key, e.values, v);
      assert sofar + text == done + RenderValues(e.key, e.values[..v + 1]);
      sofar := sofar + text;
      v := v + 1;
    }
    assert e.values[..v] == e.values;
  }

  /** One key: bare, or once for each of its values. */
  method SnprintKey(buf: array<char>, start: nat, size: nat, e: KeyValue, ghost before: seq<char>, ghost done: string)
    returns (pos: nat)
    requires size <= buf.Length == |before| && IsPrinted(buf[..], before, size, done) && start == |done|
    modifies buf
    ensures pos == |done + RenderOne(e)| && IsPrinted(buf[..], before, size, done + RenderOne(e))
  {
    if e.values == [] {
      pos := PrintOn(buf, start, size, e.key + " ", before, done);
    } else {
      pos := SnprintValues(buf, start, size, e, before, done);
    }
  }

  /** xbc_snprint_cmdline with the first size bytes of buf. */
  method XbcSnprintCmdline(buf: array<char>, size: nat, entries: seq<KeyValue>) returns (ret: int)
    requires size <= buf.Length
    modifies buf
    ensures Composable(entries) ==>
              ret == |Render(entries)| && IsPrinted(buf[..], old(buf[..]), size, Render(entries))
    ensures !Composable(entries) ==> ret < 0
  {
    ret := SnprintKeys(buf, size, entries, Texts(entries));
  }

  /** The outer loop, over the keys. */
  method SnprintKeys(buf: array<char>, size: nat, entries: seq<KeyValue>, ghost texts: seq<string>) returns (ret: int)
    requires size <= buf.Length && AreTexts(entries, texts)
    modifies buf
    ensures Composable(entries) ==>
              ret == |Joined(texts, |texts|)| && IsPrinted(buf[..], old(buf[..]), size, Joined(texts, |texts|))
    ensures !Composable(entries) ==> ret < 0
  {
    ghost var before := buf[..];
    var pos, k := 0, 0;
    while k < |entries|
      invariant k <= |entries| && forall i :: 0 <= i < k ==> entries[i].composeError >= 0
      invariant pos == |Joined(texts, k)| && IsPrinted(buf[..], before, size, Joined(texts, k))
    {
      if entries[k].composeError < 0 {
        return entries[k].composeError;
      }
      pos := SnprintNext(buf, pos, size, entries, texts, k, before);
      k := k + 1;
    }
    ret := pos;
  }

  /** One more key. */
  method SnprintNext(buf: array<char>, start: nat, size: nat, entries: seq<KeyValue>, ghost texts: seq<string>,
                     k: nat, ghost before: seq<char>)
    returns (pos: nat)
    requires k < |entries| && size <= buf.Length == |before| && AreTexts(entries, texts)
    requires IsPrinted(buf[..], before, size, Joined(texts, k)) && start == |Joined(texts, k)|
    modifies buf
    ensures pos == |Joined(texts, k + 1)| && IsPrinted(buf[..], before, size, Joined(texts, k + 1))
  {
    assert IsText(entries[k], texts[k]);
    pos := SnprintKey(buf, start, size, entries[k], before, Joined(texts, k));
  }

  lemma RenderNext(key: string, values: seq<string>, v: nat)
    requires v < |values|
    ensures RenderValues(key, values[..v + 1]) == RenderValues(key, values[..v]) + RenderValue(key, values[v])
  {
    var head := values[..v + 1];
    assert head[..|head| - 1] == values[..v];
  }

  /** xbc_make_cmdline: the counting pass without a buffer returns exactly the length that the writing
      pass needs, so the text is never cut.  The result is absent if there is no such node, a key
      cannot be composed, there is nothing to print or memory is short. */
  method XbcMakeCmdline(found: bool, entries: seq<KeyValue>, memory: bool) returns (present: bool, cmdline: array<char>)
    ensures present <==> found && Composable(entries) && Render(entries) != [] && memory
    ensures present ==> cmdline[..] == Render(entries) + [NUL]
  {
    cmdline := new char[0];
    if !found {
      return false, cmdline;
    }
    var nothing := new char[0];
    var len := XbcSnprintCmdline(nothing, 0, entries);
    if len <= 0 {
      return false, cmdline;
    }
    if !memory {
      return false, cmdline;
    }
    cmdline := new char[len + 1](_ => NUL);
    var ret := XbcSnprintCmdline(cmdline, len + 1, entries);
    if ret < 0 || ret > len {
      return false, cmdline;
    }
    return true, cmdline;
  }

  // ----- the saved command line

  /** strcpy(buf + at, s); the precondition is that everything, NUL included, stays inside. */
  method Strcpy(buf: array<char>, at: nat, s: string)
    requires at + |s| + 1 <= buf.Length
    modifies buf
    ensures buf[..] == old(buf[..at]) + s + [NUL] + old(buf[at + |s| + 1..])
  {
    var i := 0;
    while i < |s|
      invariant i <= |s|
      invariant forall j :: 0 <= j < buf.Length ==> buf[j] == if at <= j < at + i then s[j - at] else old(buf[j])
    {
      buf[at + i] := s[i];
      i := i + 1;
    }
    buf[at + |s|] := NUL;
    OverwrittenParts(old(buf[..]), buf[..], at, s);
  }

  lemma OverwrittenParts(before: seq<char>, now: seq<char>, at: nat, s: string)
    requires Overwritten(before, now, at, s, |s|)
    ensures now == before[..at] + s + [NUL] + before[at + |s| + 1..]
  {
  }

  /** The same, seen from a string that ends where the copy begins. */
  method CopyBehind(buf: array<char>, at: nat, s: string, ghost prefix: string)
    requires at + |s| + 1 <= buf.Length && buf[..at] == prefix
    modifies buf
    ensures Holds(buf[..], prefix + s)
  {
    Strcpy(buf, at, s);
  }

  lemma HeldPrefix(buf: seq<char>, s: string, n: nat)
    requires Holds(buf, s) && n <= |s|
    ensures buf[..n] == s[..n]
  {
    assert buf[..n] == buf[..|s|][..n];
  }

  method Strlen(buf: array<char>, ghost s: string) returns (n: nat)
    requires Holds(buf[..], s) && NoNul(s)
    ensures n == |s|
  {
    n := 0;
    assert forall i :: 0 <= i < |s| ==> buf[..][i] == s[i] != NUL;
    while buf[n] != NUL
      invariant n <= |s|
      decreases |s| - n
    {
      n := n + 1;
    }
  }

  function Text(s: Option<string>): string {
    if s.Some? then s.value else ""
  }

  /** What the saved command line says: bootconfig kernel parameters first, then the boot command line;
      bootconfig init arguments go behind the "--" of the latter, offs being the position behind it,
      or behind a " -- " of their own. */
  function SavedText(extra: Option<string>, boot: string, init: Option<string>, offs: nat): string
    requires offs <= |boot|
  {
    if init.None? then Text(extra) + boot
    else if offs > 0 then Text(extra) + boot[..offs] + init.value + boot[offs - 1..]
    else Text(extra) + boot + " -- " + init.value
  }

  /** setup_command_line.  fits is false if one of its copies would leave its allocation: then nothing
      is said of the buffers.  static_command_line is sized by the boot command line, so that depends
      on the parsed command line being no longer. */
  method SetupCommandLine(extra: Option<string>, boot: string, commandLine: string, init: Option<string>, offs: nat)
    returns (fits: bool, saved: array<char>, fixed: array<char>, savedLen: nat)
    requires NoNul(Text(extra)) && NoNul(boot) && NoNul(commandLine) && NoNul(Text(init))
    requires offs <= |boot|
    ensures fits <==> |commandLine| <= |boot|
    ensures fits ==>
              && Holds(saved[..], SavedText(extra, boot, init, offs))
              && savedLen == |SavedText(extra, boot, init, offs)|
              && Holds(fixed[..], Text(extra) + commandLine)
  {
    var xlen, ilen := 0, 0;
    savedLen := 0;
    if extra.Some? {
      xlen := |extra.value|;
    }
    if init.Some? {
      ilen := |init.value| + 4;
    }
    var len := xlen + |boot| + 1;
    saved := new char[len + ilen];
    fixed := new char[len];
    fits := CopyLine(saved, extra, xlen, boot);
    if fits {
      fits := CopyLine(fixed, extra, xlen, commandLine);
    }
    if !fits {
      return;
    }
    SavedTextNoNul(extra, boot, init, offs);
    if ilen > 0 {
      AddInit(saved, extra, xlen, boot, init.value, offs);
    }
    savedLen := Strlen(saved, SavedText(extra, boot, init, offs));
  }

  /** The bootconfig kernel parameters, if any, and a command line behind them, if there is space. */
  method CopyLine(buf: array<char>, extra: Option<string>, xlen: nat, line: string) returns (fits: bool)
    requires xlen == |Text(extra)|
    modifies buf
    ensures fits <==> xlen + |line| + 1 <= buf.Length
    ensures fits ==> Holds(buf[..], Text(extra) + line)
  {
    if xlen + |line| + 1 > buf.Length {
      return false;
    }
    if xlen > 0 {
      CopyBehind(buf, 0, extra.value, "");
    }
    CopyBehind(buf, xlen, line, Text(extra));
    return true;
  }

  /** The bootconfig init arguments, spliced in or behind a "--". */
  method AddInit(saved: array<char>, ghost extra: Option<string>, xlen: nat, boot: string, init: string, offs: nat)
    requires xlen == |Text(extra)| && offs <= |boot| && xlen + |boot| + 1 + |init| + 4 <= saved.Length
    requires Holds(saved[..], Text(extra) + boot) && NoNul(Text(extra) + boot)
    modifies saved
    ensures Holds(saved[..], SavedText(extra, boot, Some(init), offs))
  {
    ghost var x := Text(extra);
    if offs > 0 {
      SpliceInit(saved, xlen + offs, x + boot, init, boot[offs - 1..]);
      assert (x + boot)[..xlen + offs] == x + boot[..offs];
    } else {
      AppendInit(saved, x + boot, init);
    }
  }

  lemma SavedTextNoNul(extra: Option<string>, boot: string, init: Option<string>, offs: nat)
    requires NoNul(Text(extra)) && NoNul(boot) && NoNul(Text(init)) && offs <= |boot|
    ensures NoNul(SavedText(extra, boot, init, offs)) && NoNul(Text(extra) + boot)
  {
    var x := Text(extra);
    assert NoNul(x + boot);
    if init.Some? {
      if offs > 0 {
        assert NoNul(boot[..offs]) && NoNul(boot[offs - 1..]);
        assert NoNul(x + boot[..offs]);
        assert NoNul(x + boot[..offs] + init.value);
      } else {
        assert NoNul(x + boot + " -- ");
      }
    }
  }

  /** The branch for a command line with a "--" of its own. */
  method SpliceInit(saved: array<char>, at: nat, ghost base: string, init: string, rest: string)
    requires Holds(saved[..], base) && at <= |base| && at + |init| + |rest| + 1 <= saved.Length
    modifies saved
    ensures Holds(saved[..], base[..at] + init + rest)
  {
    HeldPrefix(saved[..], base, at);
    var len := at;
    CopyBehind(saved, len, init, base[..at]);
    len := len + |init|;
    CopyBehind(saved, len, rest, base[..at] + init);
  }

  /** The other branch. */
  method AppendInit(saved: array<char>, ghost base: string, init: string)
    requires Holds(saved[..], base) && NoNul(base) && |base| + 4 + |init| + 1 <= saved.Length
    modifies saved
    ensures Holds(saved[..], base + " -- " + init)
  {
    var len := Strlen(saved, base);
    CopyBehind(saved, len, " -- ", base);
    len := len + 4;
    CopyBehind(saved, len, init, base + " -- ");
  }

  // ----- what the saved command line means

  /** The words parse_args takes for the separator: bare, quoted, or quoted up to the end. */
  predicate IsDashes(word: string) {
    word in {"--", "\"--\"", "\"--"}
  }

  /** What initargs_offs says: behind head comes a separator word, the blanks behind it are skipped,
      and own are the init arguments of the boot command line. */
  predicate Separated(boot: string, offs: nat, head: string, word: string, blanks: string, own: string) {
    && boot == head + word + blanks + own && offs == |head + word + blanks|
    && IsDashes(word) && Apart(head, word) && !Open(head) && AllBlank(blanks) && (Open(word) ==> blanks == [])
    && (own != [] ==> !Blank(own[0]) && blanks != [])
  }

  /** The kernel part, a separator, the bootconfig arguments and then the boot command line's own. */
  ghost predicate SaysAsIntended(saved: string, kernel: string, word: string, init: string, own: string) {
    Words(saved) == Words(kernel) + [word] + Words(init) + Words(own)
  }

  lemma DashesAreAWord(word: string)
    requires IsDashes(word)
    ensures IsWord(word)
  {
  }

  /** The text in parts: the last character before the boot command line's own arguments is there
      twice. */
  lemma SavedParts(extra: Option<string>, boot: string, init: string, a: string, own: string)
    requires boot == a + own && a != []
    ensures SavedText(extra, boot, Some(init), |a|) == Text(extra) + a + init + [a[|a| - 1]] + own
  {
    assert boot[..|a|] == a;
    assert boot[|a| - 1..] == [a[|a| - 1]] + own;
  }

  /** With a separator in the boot command line, the bootconfig arguments come right behind it and the
      line's own arguments after them, word by word, if and only if the boot command line does not end
      in the bare separator and neither of the two bootconfig texts leaves a quote open. */
  lemma SpliceIsAsIntended(extra: Option<string>, boot: string, init: string, offs: nat,
                           head: string, word: string, blanks: string, own: string)
    requires Separated(boot, offs, head, word, blanks, own) && Apart(Text(extra), head + word)
    ensures SaysAsIntended(SavedText(extra, boot, Some(init), offs), Text(extra) + head, word, init, own)
            <==> blanks != [] && !Open(Text(extra)) && !Open(init)
    ensures blanks != [] <==> offs < |boot| || Blank(boot[|boot| - 1])
  {
    DashesAreAWord(word);
    SavedAs(extra, boot, init, head, word, blanks, own);
    KernelApart(Text(extra), head, word);
    OpenOfTwo(Text(extra), head);
    var kernel := Text(extra) + head;
    if blanks == [] {
      BareSeparator(kernel, word, init, word[|word| - 1]);
    } else {
      BlanksBehind(kernel, word, blanks, init, blanks[|blanks| - 1], own);
    }
  }

  /** A quote that is open takes in what follows. */
  lemma OpenKernel(kernel: string, t: string, word: string, init: string, own: string)
    requires Open(kernel) && t != []
    ensures !SaysAsIntended(kernel + t, kernel, word, init, own)
  {
    GluedIsOther(kernel, t, [word] + Words(init) + Words(own));
    RegroupWords(Words(kernel), [word], Words(init), Words(own));
  }

  lemma RegroupWords(a: seq<string>, b: seq<string>, c: seq<string>, d: seq<string>)
    ensures a + b + c + d == a + (b + c + d) == a + b + (c + d)
  {
  }

  lemma BareSeparator(kernel: string, word: string, init: string, c: char)
    requires Apart(kernel, word) && IsWord(word) && !Blank(c)
    ensures !SaysAsIntended(kernel + word + init + [c], kernel, word, init, [])
  {
    var t := init + [c];
    assert kernel + word + init + [c] == (kernel + word) + t && (kernel + word) + t == kernel + (word + t);
    OpenOfTwo(kernel, word);
    if Open(kernel) {
      OpenKernel(kernel, word + t, word, init, []);
    } else if Open(word) {
      SeparatorWord(kernel, word);
      GluedIsOther(kernel + word, t, Words(init) + Words([]));
      RegroupWords(Words(kernel), [word], Words(init), Words([]));
    } else {
      RunTogether(kernel, word, init, c);
    }
  }

  lemma Regroup(kernel: string, word: string, blanks: string, init: string, c: char, own: string)
    ensures kernel + word + blanks + init + [c] + own == kernel + (word + blanks + init + [c] + own)
  {
  }

  lemma BlanksBehind(kernel: string, word: string, blanks: string, init: string, c: char, own: string)
    requires Apart(kernel, word) && IsWord(word) && !Open(word) && blanks != [] && AllBlank(blanks) && Blank(c)
    ensures SaysAsIntended(kernel + word + blanks + init + [c] + own, kernel, word, init, own)
            <==> !Open(kernel) && !Open(init)
  {
    var saved := kernel + word + blanks + init + [c] + own;
    if Open(kernel) {
      Regroup(kernel, word, blanks, init, c, own);
      OpenKernel(kernel, word + blanks + init + [c] + own, word, init, own);
    } else {
      SplicedWords(kernel, word, blanks, init, c, own);
    }
  }

  lemma KernelApart(x: string, head: string, word: string)
    requires Apart(x, head + word) && Apart(head, word) && word != []
    ensures Apart(x + head, word)
  {
  }

  lemma SavedAs(extra: Option<string>, boot: string, init: string,
                head: string, word: string, blanks: string, own: string)
    requires boot == head + word + blanks + own && word != [] && (blanks == [] ==> own == [])
    ensures
      var kernel := Text(extra) + head;
      var saved := SavedText(extra, boot, Some(init), |head + word + blanks|);
      if blanks == [] then saved == kernel + word + init + [word[|word| - 1]]
      else saved == kernel + word + blanks + init + [blanks[|blanks| - 1]] + own
  {
    var a := head + word + blanks;
    SavedParts(extra, boot, init, a, own);
    assert Text(extra) + a == Text(extra) + head + word + blanks;
    if blanks == [] {
      assert a == head + word;
      assert Text(extra) + a + init + [a[|a| - 1]] + own == Text(extra) + a + init + [a[|a| - 1]];
    }
  }

  /** And the two are set apart by a space if and only if that is the last blank behind the
      separator. */
  lemma SpliceIsSpaced(extra: Option<string>, boot: string, init: string, offs: nat,
                       head: string, word: string, blanks: string, own: string)
    requires Separated(boot, offs, head, word, blanks, own)
    ensures SavedText(extra, boot, Some(init), offs) == Text(extra) + (head + word + blanks) + init + " " + own
            <==> blanks != [] && blanks[|blanks| - 1] == ' '
  {
    var a := head + word + blanks;
    SavedParts(extra, boot, init, a, own);
    var front, c := Text(extra) + a + init, a[|a| - 1];
    assert (front + [c] + own)[|front|] == c && (front + " " + own)[|front|] == ' ';
    assert c == if blanks != [] then blanks[|blanks| - 1] else word[|word| - 1];
  }

  lemma SeparatorWord(kernel: string, word: string)
    requires Apart(kernel, word) && IsWord(word) && !Open(kernel)
    ensures Words(kernel + word) == Words(kernel) + [word]
  {
    OneWord(word);
    WordsOfTwo(kernel, word);
  }

  /** The separator and the blanks behind it. */
  lemma SeparatorThenBlanks(kernel: string, word: string, blanks: string)
    requires Apart(kernel, word) && IsWord(word) && !Open(kernel) && !Open(word) && blanks != [] && AllBlank(blanks)
    ensures Words(kernel + word + blanks) == Words(kernel) + [word] && !Open(kernel + word + blanks)
  {
    SeparatorWord(kernel, word);
    OpenOfTwo(kernel, word);
    NoWords(blanks);
    WordsOfTwo(kernel + word, blanks);
    OpenOfTwo(kernel + word, blanks);
  }

  lemma SplicedWords(kernel: string, word: string, blanks: string, init: string, c: char, own: string)
    requires Apart(kernel, word) && IsWord(word) && !Open(kernel) && !Open(word)
    requires blanks != [] && AllBlank(blanks) && Blank(c)
    ensures SaysAsIntended(kernel + word + blanks + init + [c] + own, kernel, word, init, own) <==> !Open(init)
  {
    var a := kernel + word + blanks;
    SeparatorThenBlanks(kernel, word, blanks);
    WordsOfTwo(a, init);
    OpenOfTwo(a, init);
    BlankBetween(a + init, c, own);
  }

  /** A blank between two texts sets them apart if and only if no quote is open there. */
  lemma BlankBetween(a: string, c: char, b: string)
    requires Blank(c)
    ensures Words(a + [c] + b) == Words(a) + Words(b) <==> !Open(a)
  {
    if Open(a) {
      GluedIsOther(a, [c] + b, Words(b));
      assert a + [c] + b == a + ([c] + b);
    } else {
      NoWords([c]);
      OpenPush(a, c);
      WordsOfTwo(a, [c]);
      WordsOfTwo(a + [c], b);
    }
  }

  /** Behind a bare separator the arguments run into it, and its last character is left over. */
  lemma RunTogether(kernel: string, word: string, init: string, c: char)
    requires IsWord(word) && !Blank(c) && !Open(kernel) && !Open(word)
    ensures !SaysAsIntended(kernel + word + init + [c], kernel, word, init, [])
  {
    var saved := kernel + word + (init + [c]);
    OpenOfTwo(kernel, word);
    LettersOfTwo(kernel, word);
    LettersOfTwo(kernel + word, init + [c]);
    LettersPush(init, c);
    OneWord(word);
    LettersAreInWords(word);
    LettersAreInWords(kernel);
    LettersAreInWords(init);
    LettersAreInWords(saved);
    TotalOfThree(Words(kernel), [word], Words(init));
    assert kernel + word + init + [c] == saved;
    assert Words(kernel) + [word] + Words(init) + Words([]) == Words(kernel) + [word] + Words(init);
  }

  lemma TotalOfThree(a: seq<string>, b: seq<string>, c: seq<string>)
    ensures Total(a + b + c) == Total(a) + Total(b) + Total(c)
  {
    TotalOfTwo(a, b);
    TotalOfTwo(a + b, c);
  }

  /** Without a separator of its own the boot command line gets one, which is taken for one if and only
      if no quote is open there. */
  lemma AppendIsAsIntended(extra: Option<string>, boot: string, init: string)
    ensures SaysAsIntended(SavedText(extra, boot, Some(init), 0), Text(extra) + boot, "--", init, [])
            <==> !Open(Text(extra) + boot)
  {
    var kernel := Text(extra) + boot;
    if Open(kernel) {
      assert kernel + " -- " + init == kernel + (" -- " + init);
      OpenKernel(kernel, " -- " + init, "--", init, []);
    } else {
      AppendedWords(kernel, init);
    }
  }

  lemma AppendedWords(kernel: string, init: string)
    requires !Open(kernel)
    ensures SaysAsIntended(kernel + " -- " + init, kernel, "--", init, [])
  {
    DashesAreAWord("--");
    NoQuotes("--");
    NoWords(" ");
    OpenOfTwo(kernel, " ");
    WordsOfTwo(kernel, " ");
    SeparatorThenBlanks(kernel + " ", "--", " ");
    DashesInParts(kernel);
    WordsOfTwo(kernel + " -- ", init);
  }

  lemma DashesInParts(kernel: string)
    ensures kernel + " -- " == (kernel + " ") + "--" + " "
  {
  }

  /** A boot command line that ends in "--": the bootconfig arguments run into it. */
  lemma EndsInDashes()
    ensures Separated("quiet --", 8, "quiet ", "--", "", "")
    ensures SavedText(None, "quiet --", Some("x=\"1\" "), 8) == "quiet --x=\"1\" -"
    ensures !SaysAsIntended("quiet --x=\"1\" -", "quiet ", "--", "x=\"1\" ", "")
  {
    NoQuotes("quiet ");
    SpliceIsAsIntended(None, "quiet --", "x=\"1\" ", 8, "quiet ", "--", "", "");
    SavedParts(None, "quiet --", "x=\"1\" ", "quiet --", "");
    assert "" + "quiet " == "quiet ";
  }

  /** A bootconfig value that is printed in quotes leaves one open exactly if its own do not match. */
  lemma ValueLeavesOpen(key: string, value: string)
    requires !Open(key)
    ensures Open(RenderValue(key, value)) <==> Open(value)
  {
    var equals, end := "=\"", "\" ";
    OpenPush("=", QUOTE);
    NoQuotes("=");
    assert equals == "=" + [QUOTE];
    OpenPush([QUOTE], ' ');
    assert end == [QUOTE] + [' '];
    assert [QUOTE][..0] == "";
    OpenOfTwo(key, equals);
    OpenOfTwo(key + equals, value);
    OpenOfTwo(key + equals + value, end);
  }

  /** A value with an odd number of double quotes: the line's own argument is taken into its quotes. */
  lemma OpenQuoteTakesIn(value: string, own: string)
    requires Open(value) && own != [] && !Blank(own[0])
    ensures Separated("-- " + own, 3, "", "--", " ", own)
    ensures
      var init := RenderValue("x", value);
      !SaysAsIntended(SavedText(None, "-- " + own, Some(init), 3), "", "--", init, own)
  {
    NoQuotes("--");
    NoQuotes("x");
    assert "-- " + own == "" + "--" + " " + own;
    ValueLeavesOpen("x", value);
    SpliceIsAsIntended(None, "-- " + own, RenderValue("x", value), 3, "", "--", " ", own);
    assert "" + "" == "";
  }

  // ----- what is printed is read back

  /** The words a key is meant to be read as: itself, or once with each value in quotes. */
  ghost function WordsOfKey(e: KeyValue): seq<string> {
    if e.values == [] then [e.key] else seq(|e.values|, i requires 0 <= i < |e.values| => Quoted(e.key, e.values[i]))
  }

  function Quoted(key: string, value: string): string {
    key + "=" + [QUOTE] + value + [QUOTE]
  }

  ghost function WordsOfKeys(entries: seq<KeyValue>, n: nat): seq<string>
    requires n <= |entries|
  {
    if n == 0 then [] else WordsOfKeys(entries, n - 1) + WordsOfKey(entries[n - 1])
  }

  /** Keys are words, and no quotes are about. */
  ghost predicate Plain(e: KeyValue) {
    IsWord(e.key) && QUOTE !in e.key && forall i :: 0 <= i < |e.values| ==> QUOTE !in e.values[i]
  }

  lemma QuotedIsOneWord(key: string, value: string)
    requires IsWord(key) && QUOTE !in key && QUOTE !in value
    ensures Words(Quoted(key, value)) == [Quoted(key, value)] && !Open(Quoted(key, value))
  {
    var a := key + "=" + [QUOTE];
    NoQuotes(key + "=");
    OpenPush(key + "=", QUOTE);
    OneWord(a);
    GluedExactly(a, value);
    WordsPush(a + value, QUOTE);
    OpenPush(a + value, QUOTE);
  }

  /** A printed value is read as one word, blanks in it or not. */
  lemma ValueReadBack(key: string, value: string)
    requires IsWord(key) && QUOTE !in key && QUOTE !in value
    ensures Words(RenderValue(key, value)) == [Quoted(key, value)] && !Open(RenderValue(key, value))
    ensures Blank(RenderValue(key, value)[|RenderValue(key, value)| - 1])
  {
    var q := Quoted(key, value);
    QuotedIsOneWord(key, value);
    assert RenderValue(key, value) == q + [' '];
    WordsPush(q, ' ');
    OpenPush(q, ' ');
  }

  /** A text that ends behind a blank and with no quote open, or is empty. */
  ghost predicate Complete(s: string) {
    !Open(s) && (s == [] || Blank(s[|s| - 1]))
  }

  lemma CompleteOfTwo(a: string, b: string)
    requires Complete(a) && Complete(b)
    ensures Words(a + b) == Words(a) + Words(b) && Complete(a + b)
  {
    WordsOfTwo(a, b);
    OpenOfTwo(a, b);
  }

  lemma {:induction false} ValuesReadBack(key: string, values: seq<string>)
    requires IsWord(key) && QUOTE !in key && forall i :: 0 <= i < |values| ==> QUOTE !in values[i]
    ensures Complete(RenderValues(key, values))
    ensures Words(RenderValues(key, values)) == seq(|values|, i requires 0 <= i < |values| => Quoted(key, values[i]))
  {
    if values != [] {
      var front, last := values[..|values| - 1], values[|values| - 1];
      ValuesReadBack(key, front);
      ValueReadBack(key, last);
      CompleteOfTwo(RenderValues(key, front), RenderValue(key, last));
    }
  }

  lemma KeyReadBack(e: KeyValue)
    requires Plain(e)
    ensures Complete(RenderOne(e)) && Words(RenderOne(e)) == WordsOfKey(e)
  {
    if e.values == [] {
      OneWord(e.key);
      NoQuotes(e.key);
      OpenPush(e.key, ' ');
      WordsPush(e.key, ' ');
      assert e.key + " " == e.key + [' '];
    } else {
      ValuesReadBack(e.key, e.values);
    }
  }

  /** The texts are read as these words. */
  ghost predicate ReadAs(entries: seq<KeyValue>, texts: seq<string>, n: nat)
    requires n <= |entries| == |texts|
  {
    Complete(Joined(texts, n)) && Words(Joined(texts, n)) == WordsOfKeys(entries, n)
  }

  lemma NextReadBack(entries: seq<KeyValue>, texts: seq<string>, n: nat)
    requires AreTexts(entries, texts) && n < |entries| && Plain(entries[n]) && ReadAs(entries, texts, n)
    ensures ReadAs(entries, texts, n + 1)
  {
    assert IsText(entries[n], texts[n]);
    KeyReadBack(entries[n]);
    CompleteOfTwo(Joined(texts, n), texts[n]);
  }

  lemma {:induction false} KeysReadBack(entries: seq<KeyValue>, texts: seq<string>, n: nat)
    requires AreTexts(entries, texts) && n <= |entries| && forall i :: 0 <= i < |entries| ==> Plain(entries[i])
    ensures ReadAs(entries, texts, n)
  {
    if n > 0 {
      KeysReadBack(entries, texts, n - 1);
      NextReadBack(entries, texts, n - 1);
    }
  }

  /** The round trip: without quotes in keys and values, the command line printed for bootconfig keys is
      read back as exactly these keys with their values, in order. */
  lemma RenderReadBack(entries: seq<KeyValue>)
    requires forall i :: 0 <= i < |entries| ==> Plain(entries[i])
    ensures Words(Render(entries)) == WordsOfKeys(entries, |entries|) && !Open(Render(entries))
  {
    KeysReadBack(entries, Texts(entries), |entries|);
  }
}
