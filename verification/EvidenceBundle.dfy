/** The Markdown bundle of review evidence, and a reader of fenced code blocks after section 4.5
    of CommonMark 0.31.2 that gets every text back. */
module EvidenceBundle {
  import opened Wrappers

  // ------------------------------------------------------------ runs of backticks

  /** `n` backticks stand at position `i`. */
  predicate Run(s: string, i: int, n: int) {
    0 <= i && 0 <= n && i + n <= |s| && forall j | i <= j < i + n :: s[j] == '`'
  }

  function Leading(s: string, c: char): (n: nat)
    ensures n <= |s| && (forall j | 0 <= j < n :: s[j] == c) && (n < |s| ==> s[n] != c)
  {
    if s != "" && s[0] == c then 1 + Leading(s[1..], c) else 0
  }

  /** The length of the longest run. */
  function LongestRun(s: string): nat {
    if s == "" then 0
    else
      var (here, rest) := (Leading(s, '`'), LongestRun(s[1..]));
      if here > rest then here else rest
  }

  lemma {:induction false} LongestRunMeans(s: string, n: nat)
    ensures n <= LongestRun(s) <==> exists i :: Run(s, i, n)
  {
    if s == "" {
      assert n == 0 ==> Run(s, 0, 0);
    } else {
      LongestRunMeans(s[1..], n);
      if n <= Leading(s, '`') {
        assert Run(s, 0, n);
      } else if n <= LongestRun(s[1..]) {
        var i :| Run(s[1..], i, n);
        assert Run(s, i + 1, n);
      }
      if i :| Run(s, i, n) {
        if i == 0 {
          assert n <= Leading(s, '`');
        } else {
          assert Run(s[1..], i - 1, n);
        }
      }
    }
  }

  function Ticks(n: nat): (s: string)
    ensures |s| == n && forall c | c in s :: c == '`'
  {
    if n == 0 then "" else Ticks(n - 1) + "`"
  }

  /** The fence for a text: at least four backticks and longer than every run in it. */
  function FenceLength(text: string): nat {
    if LongestRun(text) + 1 > 4 then LongestRun(text) + 1 else 4
  }

  /** The fence is the shortest of at least four ticks that the text does not contain. */
  lemma FenceIsAbsent(text: string, fence: string)
    requires fence == Ticks(FenceLength(text))
    ensures forall head, tail :: text != head + fence + tail
    ensures |fence| > 4 ==> exists head, tail :: text == head + fence[1..] + tail
  {
    forall k | 0 <= k < |fence| ensures fence[k] == '`' {
      assert fence[k] in fence;
    }
    forall head, tail ensures text != head + fence + tail {
      if text == head + fence + tail {
        assert forall j | |head| <= j < |head| + |fence| :: text[j] == fence[j - |head|];
        assert Run(text, |head|, |fence|);
        LongestRunMeans(text, |fence|);
      }
    }
    if |fence| > 4 {
      var n := |fence| - 1;
      LongestRunMeans(text, n);
      var i :| Run(text, i, n);
      assert text[i..i + n] == fence[1..];
      assert text == text[..i] + fence[1..] + text[i + n..];
    }
  }

  /** One pass that counts the current run and keeps the longest. */
  method Fence(text: string) returns (fence: string)
    ensures fence == Ticks(FenceLength(text))
    // It is the shortest fence of at least four ticks that the text does not contain.
    ensures |fence| >= 4 && forall c | c in fence :: c == '`'
    ensures forall head, tail :: text != head + fence + tail
    ensures |fence| > 4 ==> exists head, tail :: text == head + fence[1..] + tail
  {
    var longest, current := 0, 0;
    assert Run(text, 0, 0);
    for i := 0 to |text|
      invariant 0 <= current <= longest <= i && Run(text, i - current, current)
      invariant current < i ==> text[i - current - 1] != '`'
      invariant exists p :: Run(text, p, longest)
      invariant forall p, n | Run(text, p, n) && p + n <= i :: n <= longest
    {
      if text[i] == '`' {
        current := current + 1;
        assert Run(text, i + 1 - current, current);
        assert forall p, n | Run(text, p, n) && p + n == i + 1 :: n <= current;
        if current > longest { longest := current; }
      } else {
        current := 0;
        assert forall p, n | Run(text, p, n) && p + n == i + 1 :: n == 0;
        assert Run(text, i + 1, 0);
      }
    }
    LongestRunMeans(text, longest);
    LongestRunMeans(text, longest + 1);
    fence := Ticks(if longest + 1 > 4 then longest + 1 else 4);
    FenceIsAbsent(text, fence);
  }

  // ------------------------------------------------------------ lines

  function Extend(c: char, lines: seq<string>): seq<string>
    requires lines != []
  {
    [[c] + lines[0]] + lines[1..]
  }

  /** The lines of a document: section 2.1 ends a line at a line feed, a carriage return, or both. */
  function Lines(s: string): (r: seq<string>)
    ensures r != []
  {
    if s == "" then [""]
    else if s[0] == '\n' then [""] + Lines(s[1..])
    else if s[0] == '\r' then [""] + Lines(if |s| > 1 && s[1] == '\n' then s[2..] else s[1..])
    else Extend(s[0], Lines(s[1..]))
  }

  /** The lines that a part contributes when a line feed follows it: a final carriage return
      merges with that line feed. */
  function PartLines(s: string): (r: seq<string>)
    ensures r != []
  {
    if s == "" || s == "\r" then [""]
    else if s[0] == '\n' then [""] + PartLines(s[1..])
    else if s[0] == '\r' then [""] + PartLines(if s[1] == '\n' then s[2..] else s[1..])
    else Extend(s[0], PartLines(s[1..]))
  }

  function WithoutFinalReturn(s: string): (r: string)
    ensures r <= s
  {
    if s != "" && s[|s| - 1] == '\r' then s[..|s| - 1] else s
  }

  lemma {:induction false} PartLinesAre(s: string)
    ensures PartLines(s) == Lines(WithoutFinalReturn(s))
  {
    var cut := WithoutFinalReturn(s);
    if s != "" && s != "\r" {
      assert cut[1..] == WithoutFinalReturn(s[1..]);
      if s[0] == '\r' && s[1] == '\n' {
        if |s| > 2 {
          assert s[2..][|s| - 3] == s[|s| - 1];
          assert cut[2..] == WithoutFinalReturn(s[2..]);
        }
        PartLinesAre(s[2..]);
      } else {
        PartLinesAre(s[1..]);
      }
    }
  }

  lemma ExtendAppend(c: char, first: seq<string>, second: seq<string>)
    requires first != []
    ensures Extend(c, first + second) == Extend(c, first) + second
  {
  }

  /** The whole is the part, a line feed and the rest. */
  predicate Joined(whole: string, a: string, b: string) {
    |whole| == |a| + 1 + |b| && whole[..|a|] == a && whole[|a|] == '\n' && whole[|a| + 1..] == b
  }

  lemma JoinedDrop(whole: string, a: string, b: string, n: nat)
    requires Joined(whole, a, b) && n <= |a|
    ensures Joined(whole[n..], a[n..], b)
    ensures forall i | 0 <= i < |a| :: whole[i] == a[i]
  {
    assert forall i | 0 <= i < |a| :: whole[i] == whole[..|a|][i];
    assert whole[n..][..|a| - n] == whole[..|a|][n..];
    assert whole[n..][|a| - n + 1..] == whole[|a| + 1..];
  }

  /** One step of `LinesOfPart` over a line ending or over any other character. */
  lemma LinesStep(whole: string, a: string, b: string, skip: nat)
    requires Joined(whole, a, b) && a != "" && a != "\r"
    requires skip == if a[0] == '\r' && a[1] == '\n' then 2 else 1
    requires Lines(whole[skip..]) == PartLines(a[skip..]) + Lines(b)
    ensures Lines(whole) == PartLines(a) + Lines(b)
  {
    JoinedDrop(whole, a, b, 0);
    var (first, second) := (PartLines(a[skip..]), Lines(b));
    if a[0] == '\n' || a[0] == '\r' {
      Associative([""], first, second);
      assert PartLines(a) == [""] + first;
      assert Lines(whole) == [""] + (first + second) by {
        assert a[0] == '\r' ==> whole[1] == a[1];
      }
    } else {
      assert PartLines(a) == Extend(a[0], first);
      assert Lines(whole) == Extend(a[0], first + second);
      ExtendAppend(a[0], first, second);
    }
  }

  /** The lines of a part and of what follows its line feed. */
  lemma {:induction false} LinesOfPart(whole: string, a: string, b: string)
    requires Joined(whole, a, b)
    ensures Lines(whole) == PartLines(a) + Lines(b)
    decreases |a|
  {
    if a == "" {
      assert whole[1..] == b;
    } else if a == "\r" {
      JoinedDrop(whole, a, b, 0);
      assert whole[1] == '\n' && whole[2..] == b;
    } else {
      var skip := if a[0] == '\r' && a[1] == '\n' then 2 else 1;
      JoinedDrop(whole, a, b, skip);
      LinesOfPart(whole[skip..], a[skip..], b);
      LinesStep(whole, a, b, skip);
    }
  }

  // ------------------------------------------------------------ strings of the source language

  /** `"\n".join(parts)`. */
  function Join(parts: seq<string>): string {
    if parts == [] then ""
    else if |parts| == 1 then parts[0]
    else Join(parts[..|parts| - 1]) + ("\n" + parts[|parts| - 1])
  }

  predicate Space(c: char) {
    || '\t' <= c <= '\r' || '\U{1C}' <= c <= ' ' || c == '\U{85}' || c == '\U{A0}' || c == '\U{1680}'
    || '\U{2000}' <= c <= '\U{200A}' || c == '\U{2028}' || c == '\U{2029}' || c == '\U{202F}'
    || c == '\U{205F}' || c == '\U{3000}'
  }

  /** `rstrip()`. */
  function StripSpace(s: string): string {
    if s != "" && Space(s[|s| - 1]) then StripSpace(s[..|s| - 1]) else s
  }

  /** `rstrip("\n")`. */
  function StripNewlines(s: string): (r: string)
    ensures r <= s && (r != "" ==> r[|r| - 1] != '\n')
  {
    if s != "" && s[|s| - 1] == '\n' then StripNewlines(s[..|s| - 1]) else s
  }

  function Flatten<T>(xs: seq<seq<T>>): seq<T> {
    if xs == [] then [] else xs[0] + Flatten(xs[1..])
  }

  lemma {:induction false} FlattenConcat<T>(xs: seq<seq<T>>, ys: seq<seq<T>>)
    ensures Flatten(xs + ys) == Flatten(xs) + Flatten(ys)
  {
    if xs == [] {
      assert xs + ys == ys;
    } else {
      FlattenConcat(xs[1..], ys);
      assert (xs + ys)[1..] == xs[1..] + ys;
      Associative(xs[0], Flatten(xs[1..]), Flatten(ys));
    }
  }

  lemma Associative<T>(a: seq<T>, b: seq<T>, c: seq<T>)
    ensures (a + b) + c == a + (b + c)
  {
  }

  function EachPart(parts: seq<string>): seq<seq<string>> {
    seq(|parts|, k requires 0 <= k < |parts| => PartLines(parts[k]))
  }

  /** The lines of all parts, each followed by a line feed. */
  function AllLines(parts: seq<string>): seq<string> {
    Flatten(EachPart(parts))
  }

  lemma AllLinesConcat(first: seq<string>, second: seq<string>)
    ensures AllLines(first + second) == AllLines(first) + AllLines(second)
  {
    FlattenConcat(EachPart(first), EachPart(second));
    assert EachPart(first + second) == EachPart(first) + EachPart(second);
  }

  lemma AllLinesOne(part: string)
    ensures AllLines([part]) == PartLines(part)
  {
    var each := EachPart([part]);
    assert each[0] == PartLines(part) && each[1..] == [];
    assert Flatten(each[1..]) == [];
    assert each[0] + [] == each[0];
  }

  lemma JoinNext(parts: seq<string>, last: string)
    requires parts != []
    ensures Join(parts + [last]) == Join(parts) + ("\n" + last)
  {
    assert (parts + [last])[..|parts|] == parts;
  }

  /** The lines of joined parts and of whatever follows. */
  lemma {:induction false} LinesOfJoin(parts: seq<string>, rest: string, whole: string)
    requires parts != [] && Joined(whole, Join(parts), rest)
    ensures Lines(whole) == AllLines(parts) + Lines(rest)
    decreases |parts|
  {
    var (before, last) := (parts[..|parts| - 1], parts[|parts| - 1]);
    AllLinesConcat(before, [last]);
    AllLinesOne(last);
    assert parts == before + [last];
    if before == [] {
      assert Join(parts) == last && AllLines(before) == [];
      LinesOfPart(whole, last, rest);
    } else {
      var tail := whole[|Join(before)| + 1..];
      JoinedTail(whole, Join(before), last, rest);
      LinesOfJoin(before, tail, whole);
      LinesOfPart(tail, last, rest);
      Associative(AllLines(before), PartLines(last), Lines(rest));
    }
  }

  lemma JoinedTail(whole: string, before: string, last: string, rest: string)
    requires Joined(whole, before + ("\n" + last), rest)
    ensures Joined(whole, before, whole[|before| + 1..]) && Joined(whole[|before| + 1..], last, rest)
  {
    var both := before + ("\n" + last);
    assert both[..|before|] == before && both[|before|] == '\n' && both[|before| + 1..] == last;
    assert forall i | 0 <= i < |both| :: whole[i] == whole[..|both|][i];
    assert whole[..|before|] == both[..|before|];
    assert whole[|before| + 1..][..|last|] == both[|before| + 1..];
    assert whole[|before| + 1..][|last| + 1..] == whole[|both| + 1..];
  }

  // ------------------------------------------------------------ the reader

  /** An open fenced code block: the fence character, its length, its indentation, and the
      content so far. */
  datatype State = Outside | Inside(fence: char, length: nat, indent: nat, content: seq<string>)

  /** An opening fence: up to three spaces, three or more backticks or tildes, and an info string
      that holds no backtick after backticks. */
  function Opener(line: string): Option<State> {
    var indent := Leading(line, ' ');
    if indent > 3 || indent == |line| then None
    else
      var (c, rest) := (line[indent], line[indent..]);
      var n := Leading(rest, c);
      if (c != '`' && c != '~') || n < 3 || (c == '`' && '`' in rest[n..]) then None
      else Some(Inside(c, n, indent, []))
  }

  /** A closing fence: up to three spaces, at least as many of the same character, and nothing but
      spaces and tabs after them. */
  predicate Closes(line: string, c: char, length: nat) {
    var indent := Leading(line, ' ');
    var n := Leading(line[indent..], c);
    indent <= 3 && n >= length && forall i | indent + n <= i < |line| :: line[i] == ' ' || line[i] == '\t'
  }

  /** Content loses as much indentation as the opening fence has. */
  function Unindent(line: string, indent: nat): string {
    if Leading(line, ' ') < indent then line[Leading(line, ' ')..] else line[indent..]
  }

  /** The contents of the fenced code blocks, in order. The end of the document closes a block. */
  function Blocks(lines: seq<string>, state: State): seq<seq<string>> {
    if lines == [] then
      if state.Inside? then [state.content] else []
    else match state
      case Outside => Blocks(lines[1..], if Opener(lines[0]).Some? then Opener(lines[0]).value else Outside)
      case Inside(c, length, indent, content) =>
        if Closes(lines[0], c, length) then [content] + Blocks(lines[1..], Outside)
        else Blocks(lines[1..], Inside(c, length, indent, content + [Unindent(lines[0], indent)]))
  }

  /** A character over and over. */
  function Times(n: nat, c: char): string {
    seq(n, _ => c)
  }

  lemma {:induction false} LeadingTimes(n: nat, c: char, rest: string)
    ensures rest == "" || rest[0] != c ==> Leading(Times(n, c) + rest, c) == n
    ensures Leading(Times(n, c) + rest, c) >= n
  {
    var s := Times(n, c) + rest;
    if n == 0 {
      assert s == rest;
    } else {
      assert s[1..] == Times(n - 1, c) + rest;
      LeadingTimes(n - 1, c, rest);
    }
  }

  lemma {:induction false} LeadingSplits(s: string, c: char)
    ensures s == Times(Leading(s, c), c) + s[Leading(s, c)..]
    ensures Leading(s, c) < |s| ==> s[Leading(s, c)] != c
  {
    if s != "" && s[0] == c {
      LeadingSplits(s[1..], c);
      assert Times(Leading(s, c), c) == [c] + Times(Leading(s[1..], c), c);
    }
  }

  /** How an indented fence is read. */
  lemma FenceParts(line: string, indent: nat, c: char, n: nat, tail: string)
    requires line == Times(indent, ' ') + Times(n, c) + tail && n > 0 && c != ' '
    requires tail == "" || tail[0] != c
    ensures Leading(line, ' ') == indent && Leading(line[indent..], c) == n && line[indent..][n..] == tail
    ensures |line| == indent + n + |tail| && line[indent] == c
  {
    var rest := Times(n, c) + tail;
    assert line == Times(indent, ' ') + rest && rest[0] == c;
    LeadingTimes(indent, ' ', rest);
    assert line[indent..] == rest;
    LeadingTimes(n, c, tail);
  }

  lemma FenceSplits(line: string, c: char)
    ensures var indent := Leading(line, ' ');
      var n := Leading(line[indent..], c);
      line == Times(indent, ' ') + Times(n, c) + line[indent..][n..]
  {
    LeadingSplits(line, ' ');
    LeadingSplits(line[Leading(line, ' ')..], c);
  }

  /** The lines that open a block, as section 4.5 writes them. */
  lemma OpeningLines(line: string, c: char, n: nat, indent: nat)
    ensures Opener(line) == Some(Inside(c, n, indent, [])) <==>
      && indent <= 3 && n >= 3 && (c == '`' || c == '~')
      && exists info :: line == Times(indent, ' ') + Times(n, c) + info
                        && (info == "" || info[0] != c) && (c == '`' ==> '`' !in info)
  {
    FenceSplits(line, c);
    forall info | line == Times(indent, ' ') + Times(n, c) + info && (info == "" || info[0] != c) && n >= 3 && c != ' '
      ensures Leading(line, ' ') == indent && Leading(line[indent..], c) == n && line[indent..][n..] == info
      ensures |line| > indent && line[indent] == c
    {
      FenceParts(line, indent, c, n, info);
    }
  }

  lemma ClosesWith(line: string, c: char, length: nat, indent: nat, n: nat, tail: string)
    requires c != ' ' && c != '\t' && indent <= 3 && n >= length > 0
    requires line == Times(indent, ' ') + Times(n, c) + tail && forall x | x in tail :: x == ' ' || x == '\t'
    ensures Closes(line, c, length)
  {
    assert tail == "" || tail[0] in tail;
    FenceParts(line, indent, c, n, tail);
    forall i | indent + n <= i < |line| ensures line[i] == ' ' || line[i] == '\t' {
      assert line[i] == line[indent..][n..][i - indent - n] == tail[i - indent - n];
      assert tail[i - indent - n] in tail;
    }
  }

  lemma ClosesAfter(line: string, c: char, length: nat)
    requires Closes(line, c, length)
    ensures exists indent: nat, n: nat, tail ::
      && line == Times(indent, ' ') + Times(n, c) + tail && indent <= 3 && n >= length
      && forall x | x in tail :: x == ' ' || x == '\t'
  {
    FenceSplits(line, c);
    var indent := Leading(line, ' ');
    var n := Leading(line[indent..], c);
    var tail := line[indent..][n..];
    forall x | x in tail ensures x == ' ' || x == '\t' {
      var i :| 0 <= i < |tail| && tail[i] == x;
      assert line[indent + n + i] == x;
    }
  }

  /** The lines that close a block, as section 4.5 writes them. */
  lemma ClosingLines(line: string, c: char, length: nat)
    requires length > 0 && c != ' ' && c != '\t'
    ensures Closes(line, c, length) <==>
      exists indent: nat, n: nat, tail ::
        && line == Times(indent, ' ') + Times(n, c) + tail && indent <= 3 && n >= length
        && forall x | x in tail :: x == ' ' || x == '\t'
  {
    if Closes(line, c, length) {
      ClosesAfter(line, c, length);
    } else if indent: nat, n: nat, tail :|
      && line == Times(indent, ' ') + Times(n, c) + tail && indent <= 3 && n >= length
      && forall x | x in tail :: x == ' ' || x == '\t'
    {
      ClosesWith(line, c, length, indent, n, tail);
    }
  }

  /** What a line of a block keeps: all but as many leading spaces as the opening fence had. */
  lemma UnindentedLines(line: string, indent: nat)
    ensures exists k: nat ::
      k <= indent && line == Times(k, ' ') + Unindent(line, indent)
      && (k == indent || Unindent(line, indent) == "" || Unindent(line, indent)[0] != ' ')
  {
    LeadingSplits(line, ' ');
    var n := Leading(line, ' ');
    if n < indent {
      assert line == Times(n, ' ') + Unindent(line, indent);
    } else {
      assert line == Times(indent, ' ') + Unindent(line, indent);
    }
  }

  /** Lines that open nothing are passed over. */
  lemma {:induction false} BlocksSkip(quiet: seq<string>, rest: seq<string>)
    requires forall line | line in quiet :: Opener(line).None?
    ensures Blocks(quiet + rest, Outside) == Blocks(rest, Outside)
  {
    if quiet == [] {
      assert quiet + rest == rest;
    } else {
      assert (quiet + rest)[1..] == quiet[1..] + rest;
      BlocksSkip(quiet[1..], rest);
    }
  }

  /** Lines that do not close an unindented block become its content. */
  lemma {:induction false} BlocksContent(c: char, length: nat, content: seq<string>, lines: seq<string>,
      rest: seq<string>)
    requires forall line | line in lines :: !Closes(line, c, length)
    ensures Blocks(lines + rest, Inside(c, length, 0, content)) == Blocks(rest, Inside(c, length, 0, content + lines))
    decreases |lines|
  {
    if lines == [] {
      assert lines + rest == rest && content + lines == content;
    } else {
      assert (lines + rest)[1..] == lines[1..] + rest;
      assert content + lines == content + [lines[0]] + lines[1..];
      BlocksContent(c, length, content + [lines[0]], lines[1..], rest);
    }
  }

  // ------------------------------------------------------------ runs and lines

  lemma {:induction false} LeadingOfPrefix(prefix: string, s: string, c: char)
    requires prefix <= s
    ensures Leading(prefix, c) <= Leading(s, c)
  {
    if prefix != "" && prefix[0] == c {
      LeadingOfPrefix(prefix[1..], s[1..], c);
    }
  }

  lemma {:induction false} FirstLineIsPrefix(s: string)
    ensures Lines(s)[0] <= s
  {
    if s != "" && s[0] != '\n' && s[0] != '\r' {
      FirstLineIsPrefix(s[1..]);
    }
  }

  /** No line has a longer run of backticks than the text. */
  lemma {:induction false} LineRuns(s: string)
    ensures forall line | line in Lines(s) :: LongestRun(line) <= LongestRun(s)
  {
    if s != "" {
      LineRuns(s[1..]);
      if s[0] == '\r' && |s| > 1 && s[1] == '\n' {
        assert s[1..][1..] == s[2..];
        LineRuns(s[2..]);
      } else if s[0] != '\n' && s[0] != '\r' {
        var first := Lines(s)[0];
        FirstLineIsPrefix(s);
        LeadingOfPrefix(first, s, '`');
        assert first[1..] == Lines(s[1..])[0];
        assert forall line | line in Lines(s) :: line == first || line in Lines(s[1..]);
      }
    }
  }

  lemma RunsOfPrefix(prefix: string, s: string)
    requires prefix <= s
    ensures LongestRun(prefix) <= LongestRun(s)
  {
    LongestRunMeans(prefix, LongestRun(prefix));
    LongestRunMeans(s, LongestRun(prefix));
    var i :| Run(prefix, i, LongestRun(prefix));
    assert Run(s, i, LongestRun(prefix));
  }

  /** The lines that a block shows for a text. */
  function TextLines(text: string): seq<string> {
    PartLines(StripNewlines(text))
  }

  /** No line of a text closes the block that its fence opens. */
  lemma FenceHolds(text: string)
    ensures forall line | line in TextLines(text) :: !Closes(line, '`', FenceLength(text))
  {
    var cut := WithoutFinalReturn(StripNewlines(text));
    PartLinesAre(StripNewlines(text));
    RunsOfPrefix(cut, text);
    LineRuns(cut);
    forall line | line in TextLines(text) ensures !Closes(line, '`', FenceLength(text)) {
      var (indent, length) := (Leading(line, ' '), FenceLength(text));
      if Leading(line[indent..], '`') >= length {
        assert Run(line, indent, length);
        LongestRunMeans(line, length);
      }
    }
  }

  // ------------------------------------------------------------ the bundle

  datatype Document = Document(path: string, sha256: string, bytes: string, text: string)

  datatype Command = Command(name: string, argv: string, returncode: string, sha256: string, bytes: string,
      stdout: string, stderr: string)

  datatype Bundle = Bundle(name: string, manifestSha256: string, generatedAt: string,
                           documents: seq<Document>, implementation: seq<Document>, commands: seq<Command>)

  /** A part outside of all blocks, or the fenced block of a text. */
  datatype Piece = Header(part: string) | Fenced(text: string)

  function PieceParts(piece: Piece): seq<string> {
    match piece
    case Header(part) => [part]
    case Fenced(text) => [Ticks(FenceLength(text)) + "text", StripNewlines(text), Ticks(FenceLength(text))]
  }

  function Parts(pieces: seq<Piece>): seq<string> {
    Flatten(seq(|pieces|, k requires 0 <= k < |pieces| => PieceParts(pieces[k])))
  }

  lemma PartsConcat(first: seq<Piece>, second: seq<Piece>)
    ensures Parts(first + second) == Parts(first) + Parts(second)
  {
    var (xs, ys) :=
      (seq(|first|, k requires 0 <= k < |first| => PieceParts(first[k])),
       seq(|second|, k requires 0 <= k < |second| => PieceParts(second[k])));
    FlattenConcat(xs, ys);
    assert seq(|first + second|, k requires 0 <= k < |first + second| => PieceParts((first + second)[k])) == xs + ys;
  }

  lemma PartsCons(pieces: seq<Piece>)
    requires pieces != []
    ensures Parts(pieces) == PieceParts(pieces[0]) + Parts(pieces[1..])
  {
    var xs := seq(|pieces|, k requires 0 <= k < |pieces| => PieceParts(pieces[k]));
    assert xs[1..] == seq(|pieces[1..]|, k requires 0 <= k < |pieces[1..]| => PieceParts(pieces[1..][k]));
  }

  function Headers(parts: seq<string>): seq<Piece> {
    seq(|parts|, k requires 0 <= k < |parts| => Header(parts[k]))
  }

  /** Header parts, the block of a text, and an empty line. */
  function Around(before: seq<string>, text: string): seq<Piece> {
    Headers(before) + [Fenced(text)] + [Header("")]
  }

  lemma {:induction false} HeadersParts(parts: seq<string>)
    ensures Parts(Headers(parts)) == parts
  {
    if parts != [] {
      PartsCons(Headers(parts));
      HeadersParts(parts[1..]);
      assert Headers(parts)[1..] == Headers(parts[1..]);
    }
  }

  lemma AroundParts(before: seq<string>, text: string)
    ensures Parts(Around(before, text)) == before + PieceParts(Fenced(text)) + [""]
  {
    HeadersParts(before);
    PartsConcat(Headers(before) + [Fenced(text)], [Header("")]);
    PartsConcat(Headers(before), [Fenced(text)]);
    PartsCons([Fenced(text)]);
    PartsCons([Header("")]);
    assert [Header("")][1..] == [] && [Fenced(text)][1..] == [];
    assert Parts([]) == [];
  }

  const COLLECTION_MODE: string := "argv-only; shell=false; " + "fail-closed"

  /** A line of the list of facts. */
  function Field(name: string, value: string): string {
    "- " + name + (": `" + value + "`")
  }

  function DocumentHeader(d: Document): seq<string> {
    ["### `" + d.path + "`", "", Field("sha256", d.sha256), Field("bytes", d.bytes), ""]
  }

  function CommandHeader(c: Command): seq<string> {
    ["### " + c.name, "", Field("argv", c.argv), Field("returncode", c.returncode),
     Field("sha256", c.sha256), Field("bytes", c.bytes), ""]
  }

  function Payload(c: Command): string {
    (if c.stdout != "" then "[stdout]\n" + c.stdout else "") + (if c.stderr != "" then "[stderr]\n" + c.stderr else "")
  }

  function SectionPieces(title: string, documents: seq<Document>): seq<Piece> {
    if documents == [] then Headers(["## " + title, ""])
    else
      var (rest, last) := (documents[..|documents| - 1], documents[|documents| - 1]);
      SectionPieces(title, rest) + Around(DocumentHeader(last), last.text)
  }

  function CommandSectionPieces(commands: seq<Command>): seq<Piece> {
    if commands == [] then Headers(["## Command evidence", ""])
    else
      var (rest, last) := (commands[..|commands| - 1], commands[|commands| - 1]);
      CommandSectionPieces(rest) + Around(CommandHeader(last), Payload(last))
  }

  function TitleHeader(b: Bundle): seq<string> {
    ["# Review evidence: " + b.name, "", Field("schema_version", "0.1"), Field("manifest_sha256", b.manifestSha256),
     Field("generated_at", b.generatedAt), Field("collection_mode", COLLECTION_MODE), ""]
  }

  function Pieces(b: Bundle): seq<Piece> {
    Headers(TitleHeader(b)) + SectionPieces("Document evidence", b.documents)
    + SectionPieces("Implementation evidence", b.implementation) + CommandSectionPieces(b.commands)
  }

  function Render(b: Bundle): string {
    StripSpace(Join(Parts(Pieces(b)))) + "\n"
  }

  /** The blocks that a reader finds in a document. */
  function ReadBack(s: string): seq<seq<string>> {
    Blocks(Lines(s), Outside)
  }

  /** The texts of a bundle, in order. */
  function Texts(b: Bundle): seq<string> {
    DocumentTexts(b.documents) + DocumentTexts(b.implementation) + Payloads(b.commands)
  }

  /** The lines that the pieces' blocks show, in order. */
  function Shown(pieces: seq<Piece>): seq<seq<string>> {
    if pieces == [] then []
    else (if pieces[0].Fenced? then [TextLines(pieces[0].text)] else []) + Shown(pieces[1..])
  }

  /** No line of the part opens a block. */
  predicate QuietPart(part: string) {
    forall line | line in PartLines(part) :: Opener(line).None?
  }

  predicate QuietHeaders(pieces: seq<Piece>) {
    forall piece | piece in pieces && piece.Header? :: QuietPart(piece.part)
  }

  // ------------------------------------------------------------ the round trip

  predicate SingleLine(s: string) {
    '\n' !in s && '\r' !in s
  }

  lemma {:induction false} LinesOfSingleLine(s: string)
    requires SingleLine(s)
    ensures Lines(s) == [s]
  {
    if s != "" {
      LinesOfSingleLine(s[1..]);
      assert [s[0]] + s[1..] == s && [s[1..]][1..] == [];
    }
  }

  lemma PartOfSingleLine(s: string)
    requires SingleLine(s)
    ensures PartLines(s) == [s] && AllLines([s]) == [s]
  {
    LinesOfSingleLine(s);
    PartLinesAre(s);
    assert s != "" ==> s[|s| - 1] in s;
    AllLinesOne(s);
  }

  /** A line that begins with backticks and goes on with something else. */
  lemma TicksLead(n: nat, tail: string)
    requires n >= 3 && (tail != "" ==> tail[0] != '`')
    ensures Leading(Ticks(n) + tail, '`') == n && Leading(Ticks(n) + tail, ' ') == 0
  {
    var line := Ticks(n) + tail;
    assert forall i | 0 <= i < n :: line[i] == Ticks(n)[i] && Ticks(n)[i] in Ticks(n);
    assert tail != "" ==> line[n] == tail[0];
  }

  /** The opening fence opens, and the closing fence closes, whatever the length. */
  lemma FenceLines(n: nat)
    requires n >= 3
    ensures SingleLine(Ticks(n)) && SingleLine(Ticks(n) + "text")
    ensures Opener(Ticks(n) + "text") == Some(Inside('`', n, 0, []))
    ensures Closes(Ticks(n), '`', n)
  {
    TicksLead(n, "text");
    TicksLead(n, "");
    var (fence, line) := (Ticks(n), Ticks(n) + "text");
    assert fence + "" == fence && fence[0..] == fence && line[0..] == line && line[n..] == "text";
    assert line[0] == fence[0] && fence[0] in fence;
  }

  lemma BlocksOpen(line: string, rest: seq<string>)
    requires Opener(line).Some?
    ensures Blocks([line] + rest, Outside) == Blocks(rest, Opener(line).value)
  {
    assert ([line] + rest)[1..] == rest;
  }

  lemma BlocksClose(line: string, rest: seq<string>, c: char, length: nat, content: seq<string>)
    requires Closes(line, c, length)
    ensures Blocks([line] + rest, Inside(c, length, 0, content)) == [content] + Blocks(rest, Outside)
  {
    assert ([line] + rest)[1..] == rest;
  }

  /** The lines of a block. */
  lemma BlockLines(text: string)
    ensures AllLines(PieceParts(Fenced(text))) ==
      [Ticks(FenceLength(text)) + "text"] + (TextLines(text) + [Ticks(FenceLength(text))])
  {
    var n := FenceLength(text);
    var (open, middle, close) := (Ticks(n) + "text", StripNewlines(text), Ticks(n));
    FenceLines(n);
    PartOfSingleLine(open);
    PartOfSingleLine(close);
    AllLinesOne(middle);
    AllLinesConcat([middle], [close]);
    AllLinesConcat([open], [middle] + [close]);
    assert PieceParts(Fenced(text)) == [open] + ([middle] + [close]);
  }

  /** One block is read back as the lines of its text. */
  lemma BlockReadBack(text: string, rest: seq<string>)
    ensures Blocks(AllLines(PieceParts(Fenced(text))) + rest, Outside) == [TextLines(text)] + Blocks(rest, Outside)
  {
    var n := FenceLength(text);
    var (open, close, content) := (Ticks(n) + "text", Ticks(n), TextLines(text));
    FenceLines(n);
    FenceHolds(text);
    BlockLines(text);
    Associative([open], content + [close], rest);
    Associative(content, [close], rest);
    BlocksOpen(open, content + [close] + rest);
    BlocksContent('`', n, [], content, [close] + rest);
    assert [] + content == content;
    BlocksClose(close, rest, '`', n, content);
  }

  lemma PiecesSplit(pieces: seq<Piece>, rest: seq<string>)
    requires pieces != []
    ensures AllLines(Parts(pieces)) + rest == AllLines(PieceParts(pieces[0])) + (AllLines(Parts(pieces[1..])) + rest)
  {
    PartsCons(pieces);
    AllLinesConcat(PieceParts(pieces[0]), Parts(pieces[1..]));
    Associative(AllLines(PieceParts(pieces[0])), AllLines(Parts(pieces[1..])), rest);
  }

  /** Pieces with quiet headers are read back as their texts, in order. */
  lemma {:induction false} PiecesReadBack(pieces: seq<Piece>, rest: seq<string>)
    requires QuietHeaders(pieces)
    ensures Blocks(AllLines(Parts(pieces)) + rest, Outside) == Shown(pieces) + Blocks(rest, Outside)
    decreases |pieces|
  {
    if pieces == [] {
      assert AllLines(Parts(pieces)) + rest == rest;
    } else {
      var (piece, more) := (pieces[0], pieces[1..]);
      var further := AllLines(Parts(more)) + rest;
      PiecesSplit(pieces, rest);
      PiecesReadBack(more, rest);
      PieceReadBack(piece, further);
      if piece.Fenced? {
        Associative([TextLines(piece.text)], Shown(more), Blocks(rest, Outside));
      } else {
        assert [] + Shown(more) == Shown(more);
      }
    }
  }

  lemma PieceReadBack(piece: Piece, rest: seq<string>)
    requires piece.Header? ==> QuietPart(piece.part)
    ensures Blocks(AllLines(PieceParts(piece)) + rest, Outside) ==
      if piece.Fenced? then [TextLines(piece.text)] + Blocks(rest, Outside) else Blocks(rest, Outside)
  {
    if piece.Fenced? {
      BlockReadBack(piece.text, rest);
    } else {
      AllLinesOne(piece.part);
      BlocksSkip(PartLines(piece.part), rest);
    }
  }

  lemma {:induction false} ShownConcat(first: seq<Piece>, second: seq<Piece>)
    ensures Shown(first + second) == Shown(first) + Shown(second)
  {
    if first == [] {
      assert first + second == second;
    } else {
      assert (first + second)[1..] == first[1..] + second;
      ShownConcat(first[1..], second);
      Associative(if first[0].Fenced? then [TextLines(first[0].text)] else [], Shown(first[1..]), Shown(second));
    }
  }

  lemma AroundShown(before: seq<string>, text: string)
    ensures Shown(Around(before, text)) == [TextLines(text)]
  {
    ShownConcat(Headers(before) + [Fenced(text)], [Header("")]);
    ShownConcat(Headers(before), [Fenced(text)]);
    NothingShown(Headers(before));
    NothingShown([Header("")]);
    assert [Fenced(text)][1..] == [];
    assert Shown([]) == [];
  }

  lemma {:induction false} NothingShown(pieces: seq<Piece>)
    requires forall piece | piece in pieces :: piece.Header?
    ensures Shown(pieces) == []
  {
    if pieces != [] {
      assert pieces[0] in pieces;
      NothingShown(pieces[1..]);
    }
  }

  /** The lines that blocks should show for texts. */
  function TextsShown(texts: seq<string>): seq<seq<string>> {
    seq(|texts|, k requires 0 <= k < |texts| => TextLines(texts[k]))
  }

  lemma TextsShownNext(texts: seq<string>, text: string)
    ensures TextsShown(texts + [text]) == TextsShown(texts) + [TextLines(text)]
  {
  }

  lemma TextsShownConcat(first: seq<string>, second: seq<string>)
    ensures TextsShown(first + second) == TextsShown(first) + TextsShown(second)
  {
  }

  function DocumentTexts(documents: seq<Document>): seq<string> {
    seq(|documents|, k requires 0 <= k < |documents| => documents[k].text)
  }

  function Payloads(commands: seq<Command>): seq<string> {
    seq(|commands|, k requires 0 <= k < |commands| => Payload(commands[k]))
  }

  lemma {:induction false} SectionShown(title: string, documents: seq<Document>)
    ensures Shown(SectionPieces(title, documents)) == TextsShown(DocumentTexts(documents))
  {
    if documents == [] {
      NothingShown(SectionPieces(title, documents));
    } else {
      var (rest, last) := (documents[..|documents| - 1], documents[|documents| - 1]);
      SectionShown(title, rest);
      ShownConcat(SectionPieces(title, rest), Around(DocumentHeader(last), last.text));
      AroundShown(DocumentHeader(last), last.text);
      assert DocumentTexts(documents) == DocumentTexts(rest) + [last.text];
      TextsShownNext(DocumentTexts(rest), last.text);
    }
  }

  lemma {:induction false} CommandSectionShown(commands: seq<Command>)
    ensures Shown(CommandSectionPieces(commands)) == TextsShown(Payloads(commands))
  {
    if commands == [] {
      NothingShown(CommandSectionPieces(commands));
    } else {
      var (rest, last) := (commands[..|commands| - 1], commands[|commands| - 1]);
      CommandSectionShown(rest);
      ShownConcat(CommandSectionPieces(rest), Around(CommandHeader(last), Payload(last)));
      AroundShown(CommandHeader(last), Payload(last));
      assert Payloads(commands) == Payloads(rest) + [Payload(last)];
      TextsShownNext(Payloads(rest), Payload(last));
    }
  }

  lemma BundleShown(b: Bundle)
    ensures Shown(Pieces(b)) == TextsShown(Texts(b))
  {
    var (title, documents, implementation, commands) :=
      (Headers(TitleHeader(b)), SectionPieces("Document evidence", b.documents),
        SectionPieces("Implementation evidence", b.implementation), CommandSectionPieces(b.commands));
    ShownConcat(title + documents + implementation, commands);
    ShownConcat(title + documents, implementation);
    ShownConcat(title, documents);
    assert Shown(title) == [] by { NothingShown(title); }
    SectionShown("Document evidence", b.documents);
    SectionShown("Implementation evidence", b.implementation);
    CommandSectionShown(b.commands);
    TextsShownConcat(DocumentTexts(b.documents), DocumentTexts(b.implementation));
    TextsShownConcat(DocumentTexts(b.documents) + DocumentTexts(b.implementation), Payloads(b.commands));
    assert [] + TextsShown(DocumentTexts(b.documents)) == TextsShown(DocumentTexts(b.documents));
  }

  lemma StripOneNewline(front: string)
    requires front != "" && !Space(front[|front| - 1])
    ensures StripSpace(front + "\n") == front
  {
    var whole := front + "\n";
    assert whole[..|whole| - 1] == front && whole[|whole| - 1] == '\n';
    assert StripSpace(front) == front;
  }

  lemma JoinEnds(parts: seq<string>, last: string)
    requires last != ""
    ensures var front := Join(parts + [last]); front != "" && front[|front| - 1] == last[|last| - 1]
  {
    if parts == [] {
      assert parts + [last] == [last];
    } else {
      JoinNext(parts, last);
    }
  }

  /** Trailing whitespace is stripped up to the last line that ends in something else. */
  lemma StripJoined(parts: seq<string>, last: string)
    requires last != "" && !Space(last[|last| - 1])
    ensures StripSpace(Join(parts + [last] + [""])) == Join(parts + [last])
  {
    JoinEnds(parts, last);
    JoinNext(parts + [last], "");
    assert "\n" + "" == "\n";
    StripOneNewline(Join(parts + [last]));
  }

  /** Every bundle is closed by a fence. */
  lemma RenderedParts(b: Bundle)
    requires b.commands != []
    ensures exists front ::
      Pieces(b) == front + [Header("")] && Parts(front) != [] && Render(b) == Join(Parts(front)) + "\n"
  {
    var pieces := Pieces(b);
    var (front, last) := (pieces[..|pieces| - 1], b.commands[|b.commands| - 1]);
    var (body, text) := (pieces[..|pieces| - 2], Payload(last));
    assert pieces == front + [Header("")] && front == body + [Fenced(text)];
    var n := FenceLength(text);
    PartsConcat(front, [Header("")]);
    PartsConcat(body, [Fenced(text)]);
    PartsCons([Header("")]);
    PartsCons([Fenced(text)]);
    assert [Header("")][1..] == [] && [Fenced(text)][1..] == [] && Parts([]) == [];
    assert Parts([Header("")]) == [""] && Parts([Fenced(text)]) == PieceParts(Fenced(text));
    var parts := Parts(body) + [Ticks(n) + "text", StripNewlines(text)];
    assert Parts(front) == parts + [Ticks(n)];
    assert Ticks(n)[n - 1] in Ticks(n);
    StripJoined(parts, Ticks(n));
  }

  lemma RenderedLines(b: Bundle) returns (front: seq<Piece>)
    requires b.commands != []
    ensures Pieces(b) == front + [Header("")] && Lines(Render(b)) == AllLines(Parts(front)) + [""]
  {
    RenderedParts(b);
    front :| Pieces(b) == front + [Header("")] && Parts(front) != [] && Render(b) == Join(Parts(front)) + "\n";
    assert Joined(Render(b), Join(Parts(front)), "");
    LinesOfJoin(Parts(front), "", Render(b));
  }

  // ------------------------------------------------------------ when a header opens a block

  function OpeningFence(text: string): string {
    Ticks(FenceLength(text)) + "text"
  }

  /** The opening fences of the texts stand among the lines, in order. */
  predicate Carries(lines: seq<string>, texts: seq<string>) {
    texts == [] ||
    (lines != [] &&
     (Carries(lines[1..], texts) || (lines[0] == OpeningFence(texts[0]) && Carries(lines[1..], texts[1..]))))
  }

  lemma {:induction false} CarriesLater(before: seq<string>, lines: seq<string>, texts: seq<string>)
    requires Carries(lines, texts)
    ensures Carries(before + lines, texts)
  {
    if before == [] {
      assert before + lines == lines;
    } else {
      assert (before + lines)[1..] == before[1..] + lines;
      CarriesLater(before[1..], lines, texts);
    }
  }

  function FencedTexts(pieces: seq<Piece>): seq<string> {
    if pieces == [] then []
    else (if pieces[0].Fenced? then [pieces[0].text] else []) + FencedTexts(pieces[1..])
  }

  lemma {:induction false} ShownIsTexts(pieces: seq<Piece>)
    ensures Shown(pieces) == TextsShown(FencedTexts(pieces))
  {
    if pieces != [] {
      ShownIsTexts(pieces[1..]);
      var first := if pieces[0].Fenced? then [pieces[0].text] else [];
      TextsShownConcat(first, FencedTexts(pieces[1..]));
    }
  }

  lemma {:induction false} PiecesCarry(pieces: seq<Piece>, rest: seq<string>)
    ensures Carries(AllLines(Parts(pieces)) + rest, FencedTexts(pieces))
  {
    if pieces != [] {
      var (piece, more) := (pieces[0], pieces[1..]);
      var further := AllLines(Parts(more)) + rest;
      PiecesCarry(more, rest);
      PiecesSplit(pieces, rest);
      if piece.Fenced? {
        var tail := TextLines(piece.text) + [Ticks(FenceLength(piece.text))];
        BlockLines(piece.text);
        CarriesLater(tail, further, FencedTexts(more));
        Associative([OpeningFence(piece.text)], tail, further);
        assert ([OpeningFence(piece.text)] + (tail + further))[1..] == tail + further;
        assert FencedTexts(pieces)[1..] == FencedTexts(more);
      } else {
        assert FencedTexts(pieces) == FencedTexts(more);
        CarriesLater(AllLines(PieceParts(piece)), further, FencedTexts(more));
      }
    }
  }

  /** No text shows the fence that opens its own block. */
  lemma TextHasNotItsFence(text: string)
    ensures OpeningFence(text) !in TextLines(text)
  {
    var (line, n) := (OpeningFence(text), FenceLength(text));
    if line in TextLines(text) {
      var cut := WithoutFinalReturn(StripNewlines(text));
      PartLinesAre(StripNewlines(text));
      RunsOfPrefix(cut, text);
      LineRuns(cut);
      assert forall i | 0 <= i < n :: Ticks(n)[i] in Ticks(n) && line[i] == Ticks(n)[i];
      assert Run(line, 0, n);
      LongestRunMeans(line, n);
    }
  }

  lemma OpeningFenceStays(text: string, c: char, length: nat, indent: nat)
    requires length >= 3
    ensures !Closes(OpeningFence(text), c, length) && Unindent(OpeningFence(text), indent) == OpeningFence(text)
    ensures Opener(OpeningFence(text)) == Some(Inside('`', FenceLength(text), 0, []))
  {
    var line := OpeningFence(text);
    FenceLines(FenceLength(text));
    assert line[0] in Ticks(FenceLength(text)) && line[|line| - 1] == 't';
    assert Leading(line, ' ') == 0 && line[0..] == line;
    assert Leading(line, c) < |line|;
  }

  /** Once a block is open that is none of a text's own, the reader stays ahead of the texts: it
      cannot end at the blocks of those texts, the first `ahead` of which it has passed.  Each fence
      that an open block swallows is the fence of a text whose block came earlier, as no text shows
      its own fence; so no block makes up for the one too many. */
  lemma {:induction false} StaysAhead(lines: seq<string>, texts: seq<string>, state: State, ahead: nat)
    requires Carries(lines, texts) && ahead <= |texts|
    requires if state.Inside? then state.length >= 3 else ahead >= 1
    ensures Blocks(lines, state) != TextsShown(texts[ahead..])
    decreases |lines|
  {
    if lines == [] {
      assert texts == [];
    } else if Carries(lines[1..], texts) {
      StepAhead(lines, texts, state, ahead);
    } else {
      SwallowFence(lines, texts, state, ahead);
    }
  }

  /** A line that is no opening fence of the texts to come. */
  lemma {:induction false} StepAhead(lines: seq<string>, texts: seq<string>, state: State, ahead: nat)
    requires lines != [] && Carries(lines[1..], texts) && ahead <= |texts|
    requires if state.Inside? then state.length >= 3 else ahead >= 1
    ensures Blocks(lines, state) != TextsShown(texts[ahead..])
    decreases |lines|, 0
  {
    match state
    case Outside =>
      StaysAhead(lines[1..], texts, if Opener(lines[0]).Some? then Opener(lines[0]).value else Outside, ahead);
    case Inside(c, length, indent, content) =>
      if !Closes(lines[0], c, length) {
        StaysAhead(lines[1..], texts, Inside(c, length, indent, content + [Unindent(lines[0], indent)]), ahead);
      } else if ahead < |texts| {
        StaysAhead(lines[1..], texts, Outside, ahead + 1);
        assert ([content] + Blocks(lines[1..], Outside))[1..] == Blocks(lines[1..], Outside);
        assert TextsShown(texts[ahead..])[1..] == TextsShown(texts[ahead + 1..]);
      }
  }

  /** The opening fence of the next text. */
  lemma {:induction false} SwallowFence(lines: seq<string>, texts: seq<string>, state: State, ahead: nat)
    requires lines != [] && texts != [] && ahead <= |texts|
    requires lines[0] == OpeningFence(texts[0]) && Carries(lines[1..], texts[1..])
    requires if state.Inside? then state.length >= 3 else ahead >= 1
    ensures Blocks(lines, state) != TextsShown(texts[ahead..])
    decreases |lines|, 0
  {
    var next := if state.Outside? then Inside('`', FenceLength(texts[0]), 0, [])
                else state.(content := state.content + [lines[0]]);
    OpeningFenceStays(texts[0], next.fence, next.length, next.indent);
    assert Blocks(lines, state) == Blocks(lines[1..], next);
    if ahead > 0 {
      StaysAhead(lines[1..], texts[1..], next, ahead - 1);
      assert texts[1..][ahead - 1..] == texts[ahead..];
    } else {
      OpenBlockKeepsContent(lines[1..], next.fence, next.length, next.indent, next.content);
      TextHasNotItsFence(texts[0]);
      assert lines[0] == next.content[|next.content| - 1];
    }
  }

  lemma {:induction false} OpenBlockKeepsContent(
    lines: seq<string>, c: char, length: nat, indent: nat, content: seq<string>)
    ensures Blocks(lines, Inside(c, length, indent, content)) != []
    ensures content <= Blocks(lines, Inside(c, length, indent, content))[0]
    decreases |lines|
  {
    if lines != [] && !Closes(lines[0], c, length) {
      OpenBlockKeepsContent(lines[1..], c, length, indent, content + [Unindent(lines[0], indent)]);
    }
  }

  /** Lines one of which opens a block, read before the fences of the texts. */
  lemma {:induction false} OpeningLineBreaks(part: seq<string>, further: seq<string>, texts: seq<string>)
    requires Carries(further, texts) && exists line :: line in part && Opener(line).Some?
    ensures Blocks(part + further, Outside) != TextsShown(texts)
  {
    var tail := part[1..] + further;
    assert (part + further)[1..] == tail && (part + further)[0] == part[0];
    if Opener(part[0]).Some? {
      CarriesLater(part[1..], further, texts);
      StaysAhead(tail, texts, Opener(part[0]).value, 0);
      assert texts[0..] == texts;
    } else {
      OpeningLineBreaks(part[1..], further, texts);
    }
  }

  /** Pieces with an opening line in a header are never read back as their texts. */
  lemma {:induction false} LoudPiecesBreak(pieces: seq<Piece>, rest: seq<string>)
    requires !QuietHeaders(pieces)
    ensures Blocks(AllLines(Parts(pieces)) + rest, Outside) != Shown(pieces)
    decreases |pieces|
  {
    var (piece, more) := (pieces[0], pieces[1..]);
    var further := AllLines(Parts(more)) + rest;
    PiecesSplit(pieces, rest);
    if piece.Header? && !QuietPart(piece.part) {
      AllLinesOne(piece.part);
      PiecesCarry(more, rest);
      ShownIsTexts(more);
      OpeningLineBreaks(PartLines(piece.part), further, FencedTexts(more));
    } else {
      LoudPiecesBreak(more, rest);
      PieceReadBack(piece, further);
      assert piece.Fenced? ==> ([TextLines(piece.text)] + Blocks(further, Outside))[1..] == Blocks(further, Outside);
    }
  }

  /** The empty line at the end changes neither the blocks nor the quiet of the headers. */
  lemma ReadToTheEnd(front: seq<Piece>)
    ensures Blocks(AllLines(Parts(front)) + [""], Outside) == Shown(front) <==> QuietHeaders(front + [Header("")])
  {
    assert PartLines("") == [""] && Opener("").None?;
    assert QuietHeaders(front + [Header("")]) <==> QuietHeaders(front);
    if QuietHeaders(front) {
      PiecesReadBack(front, [""]);
      assert [""][1..] == [] && Blocks([""], Outside) == [];
    } else {
      LoudPiecesBreak(front, [""]);
    }
  }

  /** The round trip: a reader finds exactly the texts of the bundle, in order and whatever they
      contain, if and only if no line of a header opens a block. */
  lemma RoundTrip(b: Bundle)
    requires b.commands != []
    ensures ReadBack(Render(b)) == TextsShown(Texts(b)) <==> QuietHeaders(Pieces(b))
  {
    var front := RenderedLines(b);
    ReadToTheEnd(front);
    ShownConcat(front, [Header("")]);
    NothingShown([Header("")]);
    BundleShown(b);
    assert Shown(front) + [] == Shown(front);
  }

  // ------------------------------------------------------------ when it holds

  predicate PlainDocument(d: Document) {
    SingleLine(d.path) && SingleLine(d.sha256) && SingleLine(d.bytes)
  }

  predicate PlainCommand(c: Command) {
    SingleLine(c.name) && SingleLine(c.argv) && SingleLine(c.returncode) && SingleLine(c.sha256) && SingleLine(c.bytes)
  }

  predicate PlainBundle(b: Bundle) {
    && SingleLine(b.name) && SingleLine(b.manifestSha256) && SingleLine(b.generatedAt)
    && (forall d | d in b.documents + b.implementation :: PlainDocument(d))
    && forall c | c in b.commands :: PlainCommand(c)
  }

  lemma PlainPart(part: string)
    requires SingleLine(part) && (part == "" || part[0] == '#' || part[0] == '-')
    ensures QuietPart(part)
  {
    PartOfSingleLine(part);
    if part != "" {
      assert Leading(part, ' ') == 0 && part[0..] == part;
    }
  }

  predicate PlainLine(part: string) {
    SingleLine(part) && (part == "" || part[0] == '#' || part[0] == '-')
  }

  /** A value of one line between two pieces of a header line. */
  lemma PlainAround(head: string, value: string, tail: string)
    requires PlainLine(head) && head != "" && SingleLine(value) && SingleLine(tail)
    ensures PlainLine(head + value + tail)
  {
    var line := head + value + tail;
    assert line[0] == head[0];
    assert forall c | c in line :: c in head || c in value || c in tail;
  }

  /** No line of the parts opens a block. */
  predicate Quiet(parts: seq<string>) {
    QuietHeaders(Headers(parts))
  }

  lemma PlainIsQuiet(parts: seq<string>)
    requires forall k | 0 <= k < |parts| :: PlainLine(parts[k])
    ensures Quiet(parts)
  {
    forall k | 0 <= k < |parts| ensures QuietPart(parts[k]) {
      PlainPart(parts[k]);
    }
  }

  lemma QuietConcat(first: seq<Piece>, second: seq<Piece>)
    ensures QuietHeaders(first + second) <==> QuietHeaders(first) && QuietHeaders(second)
  {
    assert forall piece :: piece in first + second <==> piece in first || piece in second;
  }

  lemma QuietFour(header: seq<string>, second: seq<Piece>, third: seq<Piece>, fourth: seq<Piece>)
    ensures QuietHeaders(Headers(header) + second + third + fourth) <==>
      Quiet(header) && QuietHeaders(second) && QuietHeaders(third) && QuietHeaders(fourth)
  {
    var first := Headers(header);
    QuietConcat(first + second + third, fourth);
    QuietConcat(first + second, third);
    QuietConcat(first, second);
  }

  lemma QuietAround(pieces: seq<Piece>, before: seq<string>, text: string)
    ensures QuietHeaders(pieces + Around(before, text)) <==> QuietHeaders(pieces) && Quiet(before)
  {
    QuietConcat(pieces, Around(before, text));
    QuietConcat(Headers(before) + [Fenced(text)], [Header("")]);
    QuietConcat(Headers(before), [Fenced(text)]);
    PlainPart("");
  }

  lemma PlainField(name: string, value: string)
    requires SingleLine(name) && SingleLine(value)
    ensures PlainLine(Field(name, value))
  {
    var tail := ": `" + value + "`";
    assert forall c | c in tail :: c in ": `" || c in value;
    PlainAround("- ", name, tail);
  }

  lemma PlainDocumentHeader(d: Document)
    requires PlainDocument(d)
    ensures forall k | 0 <= k < 5 :: PlainLine(DocumentHeader(d)[k])
  {
    PlainAround("### `", d.path, "`");
    PlainField("sha256", d.sha256);
    PlainField("bytes", d.bytes);
  }

  lemma PlainCommandHeader(c: Command)
    requires PlainCommand(c)
    ensures forall k | 0 <= k < 7 :: PlainLine(CommandHeader(c)[k])
  {
    PlainAround("### ", c.name, "");
    assert "### " + c.name + "" == "### " + c.name;
    PlainField("argv", c.argv);
    PlainField("returncode", c.returncode);
    PlainField("sha256", c.sha256);
    PlainField("bytes", c.bytes);
  }

  lemma PlainMode()
    ensures PlainLine(Field("collection_mode", COLLECTION_MODE))
  {
    var (first, second) := ("argv-only; shell=false; ", "fail-closed");
    assert SingleLine(first) && SingleLine(second);
    assert forall c | c in first + second :: c in first || c in second;
    PlainField("collection_mode", COLLECTION_MODE);
  }

  lemma PlainTitle(name: string)
    requires SingleLine(name)
    ensures PlainLine("# Review evidence: " + name)
  {
    PlainAround("# Review evidence: ", name, "");
    assert "# Review evidence: " + name + "" == "# Review evidence: " + name;
  }

  lemma PlainManifest(value: string)
    requires SingleLine(value)
    ensures PlainLine(Field("manifest_sha256", value)) && PlainLine(Field("generated_at", value))
  {
    PlainField("manifest_sha256", value);
    PlainField("generated_at", value);
  }

  lemma PlainTitleHeader(b: Bundle)
    requires SingleLine(b.name) && SingleLine(b.manifestSha256) && SingleLine(b.generatedAt)
    ensures forall k | 0 <= k < 7 :: PlainLine(TitleHeader(b)[k])
  {
    forall k | 0 <= k < 7 ensures PlainLine(TitleHeader(b)[k]) {
      if k == 0 {
        PlainTitle(b.name);
      } else if k == 2 {
        PlainField("schema_version", "0.1");
      } else if k == 3 {
        PlainManifest(b.manifestSha256);
      } else if k == 4 {
        PlainManifest(b.generatedAt);
      } else if k == 5 {
        PlainMode();
      }
    }
  }

  lemma QuietTitle(title: string)
    requires SingleLine(title)
    ensures QuietHeaders(Headers(["## " + title, ""]))
  {
    PlainAround("## ", title, "");
    assert "## " + title + "" == "## " + title;
    PlainIsQuiet(["## " + title, ""]);
  }

  predicate QuietDocuments(documents: seq<Document>) {
    documents == [] ||
    (QuietDocuments(documents[..|documents| - 1]) && Quiet(DocumentHeader(documents[|documents| - 1])))
  }

  lemma {:induction false} QuietDocumentsAre(documents: seq<Document>)
    ensures QuietDocuments(documents) <==> forall d | d in documents :: Quiet(DocumentHeader(d))
  {
    if documents != [] {
      var (rest, last) := (documents[..|documents| - 1], documents[|documents| - 1]);
      QuietDocumentsAre(rest);
      assert forall d :: d in documents <==> d in rest || d == last by {
        assert documents == rest + [last];
      }
    }
  }

  predicate QuietCommands(commands: seq<Command>) {
    commands == [] ||
    (QuietCommands(commands[..|commands| - 1]) && Quiet(CommandHeader(commands[|commands| - 1])))
  }

  lemma {:induction false} QuietCommandsAre(commands: seq<Command>)
    ensures QuietCommands(commands) <==> forall c | c in commands :: Quiet(CommandHeader(c))
  {
    if commands != [] {
      var (rest, last) := (commands[..|commands| - 1], commands[|commands| - 1]);
      QuietCommandsAre(rest);
      assert forall c :: c in commands <==> c in rest || c == last by {
        assert commands == rest + [last];
      }
    }
  }

  lemma {:induction false} QuietSection(title: string, documents: seq<Document>)
    requires SingleLine(title)
    ensures QuietHeaders(SectionPieces(title, documents)) <==> QuietDocuments(documents)
  {
    if documents == [] {
      QuietTitle(title);
    } else {
      var (rest, last) := (documents[..|documents| - 1], documents[|documents| - 1]);
      QuietSection(title, rest);
      QuietAround(SectionPieces(title, rest), DocumentHeader(last), last.text);
    }
  }

  lemma QuietCommandTitle()
    ensures QuietHeaders(Headers(["## Command evidence", ""]))
  {
    QuietTitle("Command evidence");
    assert "## " + "Command evidence" == "## Command evidence";
  }

  lemma {:induction false} QuietCommandSection(commands: seq<Command>)
    ensures QuietHeaders(CommandSectionPieces(commands)) <==> QuietCommands(commands)
  {
    if commands == [] {
      QuietCommandTitle();
    } else {
      var (rest, last) := (commands[..|commands| - 1], commands[|commands| - 1]);
      QuietCommandSection(rest);
      QuietAround(CommandSectionPieces(rest), CommandHeader(last), Payload(last));
    }
  }

  /** No line of the title block, of a document's or of a command's header opens a block. */
  predicate QuietBundle(b: Bundle) {
    && Quiet(TitleHeader(b)) && QuietDocuments(b.documents)
    && QuietDocuments(b.implementation) && QuietCommands(b.commands)
  }

  lemma QuietBundleSplit(b: Bundle)
    ensures QuietHeaders(Pieces(b)) <==>
      Quiet(TitleHeader(b))
      && QuietHeaders(SectionPieces("Document evidence", b.documents))
      && QuietHeaders(SectionPieces("Implementation evidence", b.implementation))
      && QuietHeaders(CommandSectionPieces(b.commands))
  {
    QuietFour(TitleHeader(b), SectionPieces("Document evidence", b.documents),
              SectionPieces("Implementation evidence", b.implementation), CommandSectionPieces(b.commands));
  }
  lemma QuietFileSections(documents: seq<Document>)
    ensures QuietHeaders(SectionPieces("Document evidence", documents)) <==> QuietDocuments(documents)
    ensures QuietHeaders(SectionPieces("Implementation evidence", documents)) <==> QuietDocuments(documents)
  {
    QuietSection("Document evidence", documents);
    QuietSection("Implementation evidence", documents);
  }

  lemma QuietBundleIs(b: Bundle)
    ensures QuietHeaders(Pieces(b)) <==> QuietBundle(b)
  {
    QuietBundleSplit(b);
    QuietFileSections(b.documents);
    QuietFileSections(b.implementation);
    QuietCommandSection(b.commands);
  }

  /** The round trip in terms of the entries: it fails for every bundle that has an opening line in
      its name, a path, a label or any other value of a header, and for no other bundle. */
  lemma ReadBackExactly(b: Bundle)
    requires b.commands != []
    ensures ReadBack(Render(b)) == TextsShown(Texts(b)) <==> QuietBundle(b)
  {
    RoundTrip(b);
    QuietBundleIs(b);
  }

  lemma LoudHeader(parts: seq<string>)
    requires parts != []
    ensures !QuietPart(parts[0]) ==> !Quiet(parts)
  {
    assert Headers(parts)[0] in Headers(parts);
  }

  /** A name, path or label with an opening line breaks the reading, wherever it stands. */
  lemma OpeningNameBreaks(b: Bundle, part: string, line: string)
    requires b.commands != []
    requires
      || part == "# Review evidence: " + b.name
      || (exists d :: d in b.documents + b.implementation && part == "### `" + d.path + "`")
      || (exists c :: c in b.commands && part == "### " + c.name)
    requires line in PartLines(part) && Opener(line).Some?
    ensures ReadBack(Render(b)) != TextsShown(Texts(b))
  {
    ReadBackExactly(b);
    QuietDocumentsAre(b.documents);
    QuietDocumentsAre(b.implementation);
    QuietCommandsAre(b.commands);
    LoudHeader(TitleHeader(b));
    if d :| d in b.documents + b.implementation && part == "### `" + d.path + "`" {
      LoudHeader(DocumentHeader(d));
    }
    if c :| c in b.commands && part == "### " + c.name {
      LoudHeader(CommandHeader(c));
    }
  }

  /** Names, paths and labels of one line each open nothing, so the round trip holds for every
      content of the texts. */
  lemma PlainBundleReadBack(b: Bundle)
    requires b.commands != [] && PlainBundle(b)
    ensures ReadBack(Render(b)) == TextsShown(Texts(b))
  {
    PlainTitleHeader(b);
    PlainIsQuiet(TitleHeader(b));
    forall d | d in b.documents + b.implementation ensures Quiet(DocumentHeader(d)) {
      PlainDocumentHeader(d);
      PlainIsQuiet(DocumentHeader(d));
    }
    forall c | c in b.commands ensures Quiet(CommandHeader(c)) {
      PlainCommandHeader(c);
      PlainIsQuiet(CommandHeader(c));
    }
    QuietDocumentsAre(b.documents);
    QuietDocumentsAre(b.implementation);
    QuietCommandsAre(b.commands);
    ReadBackExactly(b);
  }

  function JoinLines(lines: seq<string>): string
    requires lines != []
  {
    if |lines| == 1 then lines[0] else lines[0] + ("\n" + JoinLines(lines[1..]))
  }

  lemma JoinLinesStep(lines: seq<string>, c: char)
    requires lines != []
    ensures JoinLines([""] + lines) == ['\n'] + JoinLines(lines)
    ensures JoinLines(Extend(c, lines)) == [c] + JoinLines(lines)
  {
    assert ([""] + lines)[1..] == lines;
    assert "" + ("\n" + JoinLines(lines)) == ['\n'] + JoinLines(lines);
    assert Extend(c, lines)[1..] == lines[1..];
    if |lines| > 1 {
      Associative([c], lines[0], "\n" + JoinLines(lines[1..]));
    }
  }

  lemma {:induction false} JoinLinesOf(s: string)
    ensures '\r' !in JoinLines(Lines(s))
    ensures '\r' !in s ==> JoinLines(Lines(s)) == s
  {
    if s != "" {
      var rest := if s[0] == '\r' && |s| > 1 && s[1] == '\n' then s[2..] else s[1..];
      JoinLinesOf(rest);
      JoinLinesStep(Lines(rest), s[0]);
      if '\r' !in s {
        assert s == [s[0]] + rest;
      }
    }
  }

  /** A block gives a text back character by character, without its trailing line feeds, exactly
      when the text has no carriage return.  This is the reader defined here; one after section 2.3
      of CommonMark 0.31.2 also shows U+0000 as the replacement character. */
  lemma ExactText(text: string)
    ensures JoinLines(TextLines(text)) == StripNewlines(text) <==> '\r' !in text
  {
    var t := StripNewlines(text);
    PartLinesAre(t);
    JoinLinesOf(WithoutFinalReturn(t));
    StripKeepsReturns(text);
  }

  lemma {:induction false} StripKeepsReturns(text: string)
    ensures '\r' in text <==> '\r' in StripNewlines(text)
  {
    if text != "" && text[|text| - 1] == '\n' {
      StripKeepsReturns(text[..|text| - 1]);
    }
  }

  // ------------------------------------------------------------ what is recorded

  /** The text of two outputs: each nonempty one behind its label, the standard output first, and
      nothing else. */
  predicate IsBoth(text: string, stdout: string, stderr: string) {
    && (stdout != "" ==> "[stdout]\n" + stdout <= text)
    && (stderr != "" ==> |stderr| + 9 <= |text| && text[|text| - |stderr| - 9..] == "[stderr]\n" + stderr)
    && |text| == (if stdout != "" then 9 + |stdout| else 0) + if stderr != "" then 9 + |stderr| else 0
  }

  /** Two outputs have one text, so nothing of either can be missing from it. */
  lemma BothIsOneText(text: string, stdout: string, stderr: string)
    ensures IsBoth(text, stdout, stderr) <==>
      text == (if stdout != "" then "[stdout]\n" + stdout else "") + if stderr != "" then "[stderr]\n" + stderr else ""
  {
    var (out, err) := ("[stdout]\n" + stdout, "[stderr]\n" + stderr);
    assert |out| == 9 + |stdout| && |err| == 9 + |stderr|;
    if IsBoth(text, stdout, stderr) {
      if stdout != "" && stderr != "" {
        assert text == text[..|out|] + text[|out|..];
      } else if stdout != "" {
        assert text == out + "";
      } else if stderr != "" {
        assert text == text[0..] == "" + err;
      }
    }
  }

  lemma PayloadHoldsBoth(c: Command)
    ensures IsBoth(Payload(c), c.stdout, c.stderr)
  {
    BothIsOneText(Payload(c), c.stdout, c.stderr);
  }

  /** The lines joined are the text without its trailing line feeds. */
  predicate ShowsText(block: seq<string>, text: string) {
    && block != [] && JoinLines(block) <= text
    && (forall i | |JoinLines(block)| <= i < |text| :: text[i] == '\n')
    && (JoinLines(block) != "" ==> JoinLines(block)[|JoinLines(block)| - 1] != '\n')
  }

  lemma {:induction false} OnlyNewlinesStripped(s: string)
    ensures forall i | |StripNewlines(s)| <= i < |s| :: s[i] == '\n'
  {
    if s != "" && s[|s| - 1] == '\n' {
      OnlyNewlinesStripped(s[..|s| - 1]);
    }
  }

  lemma ShowsWithoutReturns(text: string)
    requires '\r' !in text
    ensures ShowsText(TextLines(text), text)
  {
    ExactText(text);
    OnlyNewlinesStripped(text);
  }

  /** The evidence is found again: in a bundle with quiet headers, the block of every document shows its
      text, character by character where there is no carriage return. */
  lemma DocumentIsFound(b: Bundle, k: nat)
    requires b.commands != [] && QuietBundle(b) && k < |b.documents| + |b.implementation|
    requires '\r' !in (b.documents + b.implementation)[k].text
    ensures |ReadBack(Render(b))| == |b.documents| + |b.implementation| + |b.commands|
    ensures ReadBack(Render(b))[k] != []
    ensures var shown := JoinLines(ReadBack(Render(b))[k]);
      && (exists n: nat :: (b.documents + b.implementation)[k].text == shown + Times(n, '\n'))
      && (shown == "" || shown[|shown| - 1] != '\n')
  {
    ReadBackExactly(b);
    ShowsWithoutReturns((b.documents + b.implementation)[k].text);
    assert Texts(b)[k] == (b.documents + b.implementation)[k].text;
    ShownIsStripped(ReadBack(Render(b))[k], (b.documents + b.implementation)[k].text);
  }

  lemma ShownIsStripped(block: seq<string>, text: string)
    requires ShowsText(block, text)
    ensures exists n: nat :: text == JoinLines(block) + Times(n, '\n')
  {
    var shown := JoinLines(block);
    assert text == shown + Times(|text| - |shown|, '\n');
  }

  lemma PayloadIsShown(b: Bundle, k: nat)
    requires b.commands != [] && QuietBundle(b) && k < |b.commands|
    requires '\r' !in b.commands[k].stdout && '\r' !in b.commands[k].stderr
    ensures |ReadBack(Render(b))| == |b.documents| + |b.implementation| + |b.commands|
    ensures ShowsText(ReadBack(Render(b))[|b.documents| + |b.implementation| + k], Payload(b.commands[k]))
  {
    ReadBackExactly(b);
    CommandTextAt(b, k);
    PayloadHasNoReturn(b.commands[k]);
    ShowsWithoutReturns(Payload(b.commands[k]));
  }

  lemma CommandTextAt(b: Bundle, k: nat)
    requires k < |b.commands|
    ensures |TextsShown(Texts(b))| == |b.documents| + |b.implementation| + |b.commands|
    ensures TextsShown(Texts(b))[|b.documents| + |b.implementation| + k] == TextLines(Payload(b.commands[k]))
  {
  }

  /** The block of every command shows both of its outputs behind their labels. */
  lemma OutputsAreFound(b: Bundle, k: nat)
    requires b.commands != [] && QuietBundle(b) && k < |b.commands|
    requires '\r' !in b.commands[k].stdout && '\r' !in b.commands[k].stderr
    ensures |ReadBack(Render(b))| == |b.documents| + |b.implementation| + |b.commands|
    ensures ReadBack(Render(b))[|b.documents| + |b.implementation| + k] != []
    ensures var (stdout, stderr) := (b.commands[k].stdout, b.commands[k].stderr);
      var shown := JoinLines(ReadBack(Render(b))[|b.documents| + |b.implementation| + k]);
      && (exists n: nat :: shown + Times(n, '\n') ==
            (if stdout != "" then "[stdout]\n" + stdout else "") + if stderr != "" then "[stderr]\n" + stderr else "")
      && (shown == "" || shown[|shown| - 1] != '\n')
  {
    PayloadIsShown(b, k);
    PayloadHoldsBoth(b.commands[k]);
    BothIsOneText(Payload(b.commands[k]), b.commands[k].stdout, b.commands[k].stderr);
    ShownIsStripped(ReadBack(Render(b))[|b.documents| + |b.implementation| + k], Payload(b.commands[k]));
  }

  lemma PayloadHasNoReturn(c: Command)
    requires '\r' !in c.stdout && '\r' !in c.stderr
    ensures '\r' !in Payload(c)
  {
    assert '\r' !in "[stdout]\n" && '\r' !in "[stderr]\n";
  }

  /** These lines stand in the document, one after the other. */
  predicate Stand(lines: seq<string>, part: seq<string>) {
    exists i :: 0 <= i <= |lines| && part <= lines[i..]
  }

  lemma {:induction false} SingleLines(parts: seq<string>)
    requires forall k | 0 <= k < |parts| :: SingleLine(parts[k])
    ensures AllLines(parts) == parts
  {
    if parts != [] {
      SingleLines(parts[1..]);
      PartOfSingleLine(parts[0]);
      AllLinesConcat([parts[0]], parts[1..]);
      assert parts == [parts[0]] + parts[1..];
    }
  }

  lemma WholeLines(b: Bundle)
    requires b.commands != []
    ensures Lines(Render(b)) == AllLines(Parts(Pieces(b)))
  {
    var front := RenderedLines(b);
    PartsConcat(front, [Header("")]);
    HeadersParts([""]);
    assert Headers([""]) == [Header("")];
    AllLinesConcat(Parts(front), [""]);
    PartOfSingleLine("");
  }

  lemma StandWithin(before: seq<string>, lines: seq<string>, after: seq<string>, part: seq<string>)
    requires part <= lines
    ensures Stand(before + lines + after, part)
  {
    assert (before + lines + after)[|before|..] == lines + after;
  }

  lemma AroundBegins(header: seq<string>, text: string)
    requires forall k | 0 <= k < |header| :: SingleLine(header[k])
    ensures header + [OpeningFence(text)] <= AllLines(Parts(Around(header, text)))
  {
    var block := PieceParts(Fenced(text));
    AroundParts(header, text);
    AllLinesConcat(header + block, [""]);
    AllLinesConcat(header, block);
    SingleLines(header);
    BlockLines(text);
  }

  /** A header of single lines stands in every document of which its pieces are a part. */
  lemma PiecesStand(before: seq<Piece>, header: seq<string>, text: string, after: seq<Piece>)
    requires forall k | 0 <= k < |header| :: SingleLine(header[k])
    ensures Stand(AllLines(Parts(before + Around(header, text) + after)), header + [OpeningFence(text)])
  {
    var here := Around(header, text);
    PartsConcat(before + here, after);
    PartsConcat(before, here);
    AllLinesConcat(Parts(before) + Parts(here), Parts(after));
    AllLinesConcat(Parts(before), Parts(here));
    AroundBegins(header, text);
    StandWithin(AllLines(Parts(before)), AllLines(Parts(here)), AllLines(Parts(after)), header + [OpeningFence(text)]);
  }

  lemma {:induction false} SectionHas(title: string, documents: seq<Document>, d: Document)
    returns (before: seq<Piece>, after: seq<Piece>)
    requires d in documents
    ensures SectionPieces(title, documents) == before + Around(DocumentHeader(d), d.text) + after
  {
    var (rest, last) := (documents[..|documents| - 1], documents[|documents| - 1]);
    if d == last {
      before, after := SectionPieces(title, rest), [];
    } else {
      before, after := SectionHas(title, rest, d);
      after := after + Around(DocumentHeader(last), last.text);
    }
  }

  lemma {:induction false} CommandsHave(commands: seq<Command>, c: Command)
    returns (before: seq<Piece>, after: seq<Piece>)
    requires c in commands
    ensures CommandSectionPieces(commands) == before + Around(CommandHeader(c), Payload(c)) + after
  {
    var (rest, last) := (commands[..|commands| - 1], commands[|commands| - 1]);
    if c == last {
      before, after := CommandSectionPieces(rest), [];
    } else {
      before, after := CommandsHave(rest, c);
      after := after + Around(CommandHeader(last), Payload(last));
    }
  }

  lemma FieldIs(name: string, head: string, value: string)
    requires head == "- " + name + ": `"
    ensures Field(name, value) == head + value + "`"
  {
  }

  lemma DocumentHeaderIs(d: Document)
    ensures DocumentHeader(d) ==
      ["### `" + d.path + "`", "", "- sha256: `" + d.sha256 + "`", "- bytes: `" + d.bytes + "`", ""]
  {
    FieldIs("sha256", "- sha256: `", d.sha256);
    FieldIs("bytes", "- bytes: `", d.bytes);
  }

  lemma CommandHeaderIs(c: Command)
    ensures CommandHeader(c) ==
      ["### " + c.name, "", "- argv: `" + c.argv + "`", "- returncode: `" + c.returncode + "`",
       "- sha256: `" + c.sha256 + "`", "- bytes: `" + c.bytes + "`", ""]
  {
    FieldIs("argv", "- argv: `", c.argv);
    FieldIs("returncode", "- returncode: `", c.returncode);
    FieldIs("sha256", "- sha256: `", c.sha256);
    FieldIs("bytes", "- bytes: `", c.bytes);
  }

  lemma DocumentStands(b: Bundle, d: Document)
    requires b.commands != [] && PlainDocument(d) && d in b.documents + b.implementation
    ensures Stand(Lines(Render(b)), DocumentHeader(d) + [OpeningFence(d.text)])
  {
    var title := Headers(TitleHeader(b));
    var (first, second) := (SectionPieces("Document evidence", b.documents),
                            SectionPieces("Implementation evidence", b.implementation));
    var third := CommandSectionPieces(b.commands);
    var before, after;
    if d in b.documents {
      before, after := SectionHas("Document evidence", b.documents, d);
      before, after := title + before, after + second + third;
    } else {
      before, after := SectionHas("Implementation evidence", b.implementation, d);
      before, after := title + first + before, after + third;
    }
    assert Pieces(b) == before + Around(DocumentHeader(d), d.text) + after;
    PlainDocumentHeader(d);
    PiecesStand(before, DocumentHeader(d), d.text, after);
    WholeLines(b);
  }

  /** Every document is recorded with its path, digest and size, right before the block of its text. */
  lemma DocumentIsRecorded(b: Bundle, d: Document)
    requires b.commands != [] && PlainDocument(d) && d in b.documents + b.implementation
    ensures Stand(Lines(Render(b)),
                  ["### `" + d.path + "`", "", "- sha256: `" + d.sha256 + "`", "- bytes: `" + d.bytes + "`", ""] +
                  [OpeningFence(d.text)])
  {
    DocumentStands(b, d);
    DocumentHeaderIs(d);
  }

  lemma CommandStands(b: Bundle, c: Command)
    requires PlainCommand(c) && c in b.commands
    ensures Stand(Lines(Render(b)), CommandHeader(c) + [OpeningFence(Payload(c))])
  {
    var front := Headers(TitleHeader(b)) + SectionPieces("Document evidence", b.documents)
                 + SectionPieces("Implementation evidence", b.implementation);
    var before, after := CommandsHave(b.commands, c);
    assert Pieces(b) == front + before + Around(CommandHeader(c), Payload(c)) + after;
    PlainCommandHeader(c);
    PiecesStand(front + before, CommandHeader(c), Payload(c), after);
    WholeLines(b);
  }

  /** Every command is recorded with its label, arguments, return code, digest and size, right before the
      block of its outputs. */
  lemma CommandIsRecorded(b: Bundle, c: Command)
    requires PlainCommand(c) && c in b.commands
    ensures Stand(Lines(Render(b)),
                  ["### " + c.name, "", "- argv: `" + c.argv + "`", "- returncode: `" + c.returncode + "`",
                   "- sha256: `" + c.sha256 + "`", "- bytes: `" + c.bytes + "`", ""] +
                  [OpeningFence(Payload(c))])
  {
    CommandStands(b, c);
    CommandHeaderIs(c);
  }

  lemma TitleHeaderIs(b: Bundle)
    ensures TitleHeader(b) ==
      ["# Review evidence: " + b.name, "", "- schema_version: `" + "0.1" + "`",
       "- manifest_sha256: `" + b.manifestSha256 + "`",
       "- generated_at: `" + b.generatedAt + "`", "- collection_mode: `" + COLLECTION_MODE + "`", ""]
  {
    FieldIs("schema_version", "- schema_version: `", "0.1");
    FieldIs("manifest_sha256", "- manifest_sha256: `", b.manifestSha256);
    FieldIs("generated_at", "- generated_at: `", b.generatedAt);
    FieldIs("collection_mode", "- collection_mode: `", COLLECTION_MODE);
  }

  lemma TitleStands(b: Bundle)
    requires b.commands != [] && SingleLine(b.name) && SingleLine(b.manifestSha256) && SingleLine(b.generatedAt)
    ensures TitleHeader(b) <= Lines(Render(b))
  {
    var title := Headers(TitleHeader(b));
    var rest := Pieces(b)[|title|..];
    assert Pieces(b) == title + rest;
    PartsConcat(title, rest);
    HeadersParts(TitleHeader(b));
    AllLinesConcat(TitleHeader(b), Parts(rest));
    PlainTitleHeader(b);
    SingleLines(TitleHeader(b));
    WholeLines(b);
  }

  /** The bundle begins with its name, the schema, the digest of the manifest, the time and the mode. */
  lemma TitleIsRecorded(b: Bundle)
    requires b.commands != [] && SingleLine(b.name) && SingleLine(b.manifestSha256) && SingleLine(b.generatedAt)
    ensures
      ["# Review evidence: " + b.name, "", "- schema_version: `" + "0.1" + "`",
       "- manifest_sha256: `" + b.manifestSha256 + "`",
       "- generated_at: `" + b.generatedAt + "`", "- collection_mode: `" + COLLECTION_MODE + "`", ""]
      <= Lines(Render(b))
  {
    TitleHeaderIs(b);
    TitleStands(b);
  }

  // ------------------------------------------------------------ the program

  method RenderFileSection(title: string, entries: seq<Document>) returns (lines: seq<string>)
    ensures lines == Parts(SectionPieces(title, entries))
  {
    lines := ["## " + title, ""];
    HeadersParts(lines);
    for i := 0 to |entries|
      invariant lines == Parts(SectionPieces(title, entries[..i]))
    {
      var entry := entries[i];
      var fence := Fence(entry.text);
      assert entries[..i + 1][..i] == entries[..i];
      AroundParts(DocumentHeader(entry), entry.text);
      PartsConcat(SectionPieces(title, entries[..i]), Around(DocumentHeader(entry), entry.text));
      lines := lines + (DocumentHeader(entry) + [fence + "text", StripNewlines(entry.text), fence] + [""]);
    }
    assert entries[..|entries|] == entries;
  }

  method RenderCommandSection(commands: seq<Command>) returns (lines: seq<string>)
    ensures lines == Parts(CommandSectionPieces(commands))
  {
    lines := ["## Command evidence", ""];
    HeadersParts(lines);
    for i := 0 to |commands|
      invariant lines == Parts(CommandSectionPieces(commands[..i]))
    {
      var command := commands[i];
      var payload := "";
      if command.stdout != "" { payload := payload + ("[stdout]\n" + command.stdout); }
      if command.stderr != "" { payload := payload + ("[stderr]\n" + command.stderr); }
      assert payload == Payload(command);
      var fence := Fence(payload);
      assert commands[..i + 1][..i] == commands[..i];
      AroundParts(CommandHeader(command), payload);
      PartsConcat(CommandSectionPieces(commands[..i]), Around(CommandHeader(command), payload));
      lines := lines + (CommandHeader(command) + [fence + "text", StripNewlines(payload), fence] + [""]);
    }
    assert commands[..|commands|] == commands;
  }

  /** The whole bundle as one document. */
  method RenderBundle(b: Bundle) returns (rendered: string)
    ensures rendered == Render(b)
  {
    var lines := TitleHeader(b);
    HeadersParts(lines);
    var (title, documents, implementation, commands) :=
      (Headers(TitleHeader(b)), SectionPieces("Document evidence", b.documents),
        SectionPieces("Implementation evidence", b.implementation), CommandSectionPieces(b.commands));
    PartsConcat(title + documents + implementation, commands);
    PartsConcat(title + documents, implementation);
    PartsConcat(title, documents);
    var documentLines := RenderFileSection("Document evidence", b.documents);
    var implementationLines := RenderFileSection("Implementation evidence", b.implementation);
    var commandLines := RenderCommandSection(b.commands);
    lines := lines + documentLines + implementationLines + commandLines;
    rendered := StripSpace(Join(lines)) + "\n";
  }
}
