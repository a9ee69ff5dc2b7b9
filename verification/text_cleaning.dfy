/** `clean_text` (email2md/email_processor.py): strip every line, drop blank
    lines that are first, last or between two blank lines, join with
    newlines and strip the whole. */
module TextCleaning {
  import opened Strings

  /** `[line.strip() for line in lines]`. */
  function StripLines(lines: seq<string>): seq<string> {
    seq(|lines|, i requires 0 <= i < |lines| => Strip(lines[i]))
  }

  /** The filter condition of `clean_text`: a line stays when it is not
      blank, or when it is neither first nor last and a neighbour is not
      blank. */
  predicate KeepsLine(lines: seq<string>, i: int)
    requires 0 <= i < |lines|
  {
    lines[i] != "" || (0 < i < |lines| - 1 && (lines[i - 1] != "" || lines[i + 1] != ""))
  }

  /** The lines from index `i` on that pass the filter, in order. */
  function KeptFrom(lines: seq<string>, i: int): seq<string>
    requires 0 <= i <= |lines|
    decreases |lines| - i
  {
    if i == |lines| then []
    else (if KeepsLine(lines, i) then [lines[i]] else []) + KeptFrom(lines, i + 1)
  }

  /** The stripped, filtered lines of `text`, before the final strip. */
  function KeptLines(text: string): seq<string> {
    KeptFrom(StripLines(SplitLines(text)), 0)
  }

  /** `clean_text(text)`. */
  function CleanText(text: string): (r: string)
    ensures IsStripped(r)
  {
    Strip(Join(KeptLines(text), "\n"))
  }

  /** The non-blank members of a list of lines, in order. */
  function NonBlank(ls: seq<string>): seq<string>
    decreases |ls|
  {
    if ls == [] then [] else (if ls[0] != "" then [ls[0]] else []) + NonBlank(ls[1..])
  }

  /** No run of three blank lines. */
  predicate NoThreeBlanks(ls: seq<string>) {
    forall i :: 0 <= i < |ls| - 2 ==> !BlankRunAt(ls, i)
  }

  /** Three blank lines in a row start at index `i`. */
  predicate BlankRunAt(ls: seq<string>, i: int)
    requires 0 <= i < |ls| - 2
  {
    ls[i] == "" && ls[i + 1] == "" && ls[i + 2] == ""
  }

  /** The number of blank lines at the start. */
  function LeadingBlankCount(ls: seq<string>): (n: nat)
    ensures n <= |ls|
    ensures forall i :: 0 <= i < n ==> ls[i] == ""
    ensures n == |ls| || ls[n] != ""
    decreases |ls|
  {
    if ls != [] && ls[0] == "" then
      var m := LeadingBlankCount(ls[1..]);
      assert forall i :: 1 <= i < m + 1 ==> ls[i] == ls[1..][i - 1];
      m + 1
    else 0
  }

  /** The number of blank lines at the end. */
  function TrailingBlankCount(ls: seq<string>): (n: nat)
    ensures n <= |ls|
    ensures forall i :: |ls| - n <= i < |ls| ==> ls[i] == ""
    ensures n == |ls| || ls[|ls| - n - 1] != ""
    decreases |ls|
  {
    if ls != [] && ls[|ls| - 1] == "" then
      var m := TrailingBlankCount(ls[..|ls| - 1]);
      assert forall i :: |ls| - 1 - m <= i < |ls| - 1 ==> ls[i] == ls[..|ls| - 1][i];
      m + 1
    else 0
  }

  function DropLeadingBlanks(ls: seq<string>): (r: seq<string>)
    ensures |r| <= |ls| && r == ls[|ls| - |r|..]
    ensures forall i :: 0 <= i < |ls| - |r| ==> ls[i] == ""
    ensures r == [] || r[0] != ""
  {
    ls[LeadingBlankCount(ls)..]
  }

  function DropTrailingBlanks(ls: seq<string>): (r: seq<string>)
    ensures |r| <= |ls| && r == ls[..|r|]
    ensures forall i :: |r| <= i < |ls| ==> ls[i] == ""
    ensures r == [] || r[|r| - 1] != ""
  {
    ls[..|ls| - TrailingBlankCount(ls)]
  }

  /** The lines of `clean_text(text)`: the kept lines without the blank
      ones at either end. */
  function OutputLines(text: string): seq<string> {
    DropTrailingBlanks(DropLeadingBlanks(KeptLines(text)))
  }

  lemma {:induction false} NonBlankAppend(a: seq<string>, b: seq<string>)
    ensures NonBlank(a + b) == NonBlank(a) + NonBlank(b)
    decreases |a|
  {
    if a == [] {
      assert a + b == b;
    } else {
      assert (a + b)[1..] == a[1..] + b;
      NonBlankAppend(a[1..], b);
    }
  }

  lemma {:induction false} KeptFromNonBlank(lines: seq<string>, i: int)
    requires 0 <= i <= |lines|
    ensures NonBlank(KeptFrom(lines, i)) == NonBlank(lines[i..])
    decreases |lines| - i
  {
    if i < |lines| {
      KeptFromNonBlank(lines, i + 1);
      var head := if KeepsLine(lines, i) then [lines[i]] else [];
      NonBlankAppend(head, KeptFrom(lines, i + 1));
      assert lines[i..][1..] == lines[i + 1..];
    }
  }

  lemma {:induction false} KeptFromMembers(lines: seq<string>, i: int)
    requires 0 <= i <= |lines|
    ensures forall j :: 0 <= j < |KeptFrom(lines, i)| ==> KeptFrom(lines, i)[j] in lines
    decreases |lines| - i
  {
    if i < |lines| {
      KeptFromMembers(lines, i + 1);
    }
  }

  /** After a blank line, the kept lines never start with two blanks. */
  lemma {:induction false} NoTwoBlanksAfterBlank(lines: seq<string>, j: int)
    requires 1 <= j <= |lines| && lines[j - 1] == ""
    ensures var k := KeptFrom(lines, j); !(|k| >= 2 && k[0] == "" && k[1] == "")
    decreases |lines| - j
  {
    if j < |lines| && lines[j] == "" {
      if KeepsLine(lines, j) {
        assert KeepsLine(lines, j + 1);
      } else {
        NoTwoBlanksAfterBlank(lines, j + 1);
      }
    }
  }

  lemma {:induction false} KeptFromNoThreeBlanks(lines: seq<string>, i: int)
    requires 0 <= i <= |lines|
    ensures NoThreeBlanks(KeptFrom(lines, i))
    decreases |lines| - i
  {
    if i < |lines| && KeepsLine(lines, i) {
      KeptFromNoThreeBlanks(lines, i + 1);
      var rest := KeptFrom(lines, i + 1);
      var k := KeptFrom(lines, i);
      assert k == [lines[i]] + rest;
      forall j | 0 <= j < |k| - 2 ensures !BlankRunAt(k, j) {
        if j > 0 {
          assert !BlankRunAt(rest, j - 1);
          assert k[j] == rest[j - 1] && k[j + 1] == rest[j] && k[j + 2] == rest[j + 1];
        } else if lines[i] == "" {
          if lines[i + 1] != "" {
            assert KeepsLine(lines, i + 1);
          } else {
            NoTwoBlanksAfterBlank(lines, i + 1);
          }
        }
      }
    } else if i < |lines| {
      KeptFromNoThreeBlanks(lines, i + 1);
      assert [] + KeptFrom(lines, i + 1) == KeptFrom(lines, i + 1);
    }
  }

  /** A string that does not start with whitespace is its own `lstrip`. */
  lemma StripLeftUnchanged(s: string)
    requires s == [] || !IsSpace(s[0])
    ensures StripLeft(s) == s
  {
  }

  /** A string that does not end with whitespace is its own `rstrip`. */
  lemma StripRightUnchanged(s: string)
    requires s == [] || !IsSpace(s[|s| - 1])
    ensures StripRight(s) == s
  {
  }

  /** A blank first line turns into the leading newline of the join. */
  lemma StripLeftJoinBlankHead(ls: seq<string>)
    requires |ls| > 1 && ls[0] == ""
    ensures StripLeft(Join(ls, "\n")) == StripLeft(Join(ls[1..], "\n"))
  {
    var rest := Join(ls[1..], "\n");
    var j := "\n" + rest;
    assert Join(ls, "\n") == j;
    assert j != [] && IsSpace(j[0]) && j[1..] == rest;
  }

  /** A blank first line is dropped with the other leading blanks. */
  lemma DropLeadingBlankHead(ls: seq<string>)
    requires ls != [] && ls[0] == ""
    ensures DropLeadingBlanks(ls) == DropLeadingBlanks(ls[1..])
  {
    var m := LeadingBlankCount(ls[1..]);
    assert LeadingBlankCount(ls) == m + 1;
    assert ls[m + 1..] == ls[1..][m..];
  }

  /** A non-blank stripped first line starts the join with a non-space. */
  lemma StripLeftJoinTextHead(ls: seq<string>)
    requires ls != [] && ls[0] != "" && IsStripped(ls[0])
    ensures StripLeft(Join(ls, "\n")) == Join(ls, "\n")
  {
    var j := Join(ls, "\n");
    JoinHead(ls);
    assert j[0] == ls[0][0];
    StripLeftUnchanged(j);
  }

  /** The join starts with the first part. */
  lemma JoinHead(ls: seq<string>)
    requires ls != []
    ensures ls[0] <= Join(ls, "\n")
  {
    if |ls| > 1 {
      assert Join(ls, "\n") == ls[0] + ("\n" + Join(ls[1..], "\n"));
    }
  }

  /** A non-blank first line ends the leading blanks. */
  lemma DropLeadingTextHead(ls: seq<string>)
    requires ls != [] && ls[0] != ""
    ensures DropLeadingBlanks(ls) == ls
  {
  }

  lemma {:induction false} StripLeftJoin(ls: seq<string>)
    requires forall i :: 0 <= i < |ls| ==> IsStripped(ls[i])
    ensures StripLeft(Join(ls, "\n")) == Join(DropLeadingBlanks(ls), "\n")
    decreases |ls|
  {
    if ls == [] {
    } else if ls[0] != "" {
      StripLeftJoinTextHead(ls);
      DropLeadingTextHead(ls);
    } else if |ls| > 1 {
      StripLeftJoinBlankHead(ls);
      DropLeadingBlankHead(ls);
      StripLeftJoin(ls[1..]);
    } else {
      DropLeadingBlankHead(ls);
    }
  }

  /** A blank last line turns into the trailing newline of the join. */
  lemma StripRightJoinBlankTail(ls: seq<string>)
    requires |ls| > 1 && ls[|ls| - 1] == ""
    ensures StripRight(Join(ls, "\n")) == StripRight(Join(ls[..|ls| - 1], "\n"))
  {
    var init := ls[..|ls| - 1];
    assert ls == init + [""];
    JoinSnoc(init, "", "\n");
    var j := Join(init, "\n") + "\n";
    assert Join(ls, "\n") == j;
    assert j != [] && IsSpace(j[|j| - 1]) && j[..|j| - 1] == Join(init, "\n");
  }

  /** A non-blank stripped last line ends the join with a non-space. */
  lemma StripRightJoinTextTail(ls: seq<string>)
    requires ls != [] && ls[|ls| - 1] != "" && IsStripped(ls[|ls| - 1])
    ensures StripRight(Join(ls, "\n")) == Join(ls, "\n")
  {
    var front := JoinTail(ls);
    StripRightAppend(front, ls[|ls| - 1]);
  }

  /** Text that ends in a non-space is its own `rstrip`, whatever precedes
      it. */
  lemma StripRightAppend(front: string, last: string)
    requires last != [] && !IsSpace(last[|last| - 1])
    ensures StripRight(front + last) == front + last
  {
    var j := front + last;
    assert j[|j| - 1] == last[|last| - 1];
    StripRightUnchanged(j);
  }

  /** The join ends with the last part. */
  lemma JoinTail(ls: seq<string>) returns (front: string)
    requires ls != []
    ensures Join(ls, "\n") == front + ls[|ls| - 1]
  {
    if |ls| == 1 {
      front := "";
    } else {
      var init := ls[..|ls| - 1];
      assert ls == init + [ls[|ls| - 1]];
      JoinSnoc(init, ls[|ls| - 1], "\n");
      front := Join(init, "\n") + "\n";
    }
  }

  /** A blank last line is dropped with the other trailing blanks. */
  lemma DropTrailingBlankTail(ls: seq<string>)
    requires ls != [] && ls[|ls| - 1] == ""
    ensures DropTrailingBlanks(ls) == DropTrailingBlanks(ls[..|ls| - 1])
  {
    var init := ls[..|ls| - 1];
    var m := TrailingBlankCount(init);
    assert TrailingBlankCount(ls) == m + 1;
    assert ls[..|ls| - (m + 1)] == init[..|init| - m];
  }

  /** A non-blank last line ends the trailing blanks. */
  lemma DropTrailingTextTail(ls: seq<string>)
    requires ls != [] && ls[|ls| - 1] != ""
    ensures DropTrailingBlanks(ls) == ls
  {
  }

  lemma {:induction false} StripRightJoin(ls: seq<string>)
    requires forall i :: 0 <= i < |ls| ==> IsStripped(ls[i])
    ensures StripRight(Join(ls, "\n")) == Join(DropTrailingBlanks(ls), "\n")
    decreases |ls|
  {
    if ls == [] {
    } else if ls[|ls| - 1] != "" {
      StripRightJoinTextTail(ls);
      DropTrailingTextTail(ls);
    } else if |ls| > 1 {
      StripRightJoinBlankTail(ls);
      DropTrailingBlankTail(ls);
      StripRightJoin(ls[..|ls| - 1]);
    } else {
      DropTrailingBlankTail(ls);
    }
  }

  lemma StripKeepsNoLineBreak(s: string)
    requires NoLineBreak(s)
    ensures NoLineBreak(Strip(s))
  {
    var l := StripLeft(s);
    assert forall i :: 0 <= i < |l| ==> l[i] == s[|s| - |l| + i];
  }

  lemma KeptLinesClean(text: string)
    ensures forall i :: 0 <= i < |KeptLines(text)| ==>
      IsStripped(KeptLines(text)[i]) && NoLineBreak(KeptLines(text)[i])
  {
    var split := SplitLines(text);
    var lines := StripLines(split);
    forall i | 0 <= i < |lines| ensures NoLineBreak(lines[i]) {
      StripKeepsNoLineBreak(split[i]);
    }
    KeptFromMembers(lines, 0);
  }

  /** `clean_text(text)` is its output lines joined by newlines. */
  lemma CleanTextJoinsOutputLines(text: string)
    ensures CleanText(text) == Join(OutputLines(text), "\n")
  {
    var kept := KeptLines(text);
    KeptLinesClean(text);
    StripLeftJoin(kept);
    StripRightJoin(DropLeadingBlanks(kept));
  }

  /** The lines of `clean_text(text)`: each is stripped and holds no line
      break, the first and last are not blank, every non-blank input line is
      there in its original order and nothing else but blank lines, and no
      three blank lines follow each other (a run of blank lines shrinks to
      at most two). */
  lemma OutputLinesProperties(text: string)
    ensures var ls := OutputLines(text);
      && (forall i :: 0 <= i < |ls| ==> IsStripped(ls[i]) && NoLineBreak(ls[i]))
      && (ls == [] || (ls[0] != "" && ls[|ls| - 1] != ""))
      && NonBlank(ls) == NonBlank(StripLines(SplitLines(text)))
      && NoThreeBlanks(ls)
  {
    var lines := StripLines(SplitLines(text));
    KeptLinesClean(text);
    KeptFromNonBlank(lines, 0);
    assert lines[0..] == lines;
    KeptFromNoThreeBlanks(lines, 0);
    TrimKeepsNonBlank(KeptLines(text));
    TrimKeepsShape(KeptLines(text));
    TrimKeepsClean(KeptLines(text));
  }

  /** Dropping blank lines at the start keeps every non-blank line. */
  lemma {:induction false} DropLeadingKeepsNonBlank(ls: seq<string>)
    ensures NonBlank(DropLeadingBlanks(ls)) == NonBlank(ls)
    decreases |ls|
  {
    if ls != [] && ls[0] == "" {
      DropLeadingBlankHead(ls);
      DropLeadingKeepsNonBlank(ls[1..]);
    }
  }

  /** Dropping blank lines at the end keeps every non-blank line. */
  lemma {:induction false} DropTrailingKeepsNonBlank(ls: seq<string>)
    ensures NonBlank(DropTrailingBlanks(ls)) == NonBlank(ls)
    decreases |ls|
  {
    if ls != [] && ls[|ls| - 1] == "" {
      var init := ls[..|ls| - 1];
      assert ls == init + [""];
      NonBlankAppend(init, [""]);
      DropTrailingBlankTail(ls);
      DropTrailingKeepsNonBlank(init);
    } else if ls != [] {
      DropTrailingTextTail(ls);
    }
  }

  lemma SliceNoThreeBlanks(ls: seq<string>, a: int, b: int)
    requires 0 <= a <= b <= |ls| && NoThreeBlanks(ls)
    ensures NoThreeBlanks(ls[a..b])
  {
    var t := ls[a..b];
    forall i | 0 <= i < |t| - 2 ensures !BlankRunAt(t, i) {
      assert !BlankRunAt(ls, a + i);
      assert t[i] == ls[a + i] && t[i + 1] == ls[a + i + 1] && t[i + 2] == ls[a + i + 2];
    }
  }

  /** Trimming the blank lines at both ends takes a slice of the lines. */
  lemma TrimIsSlice(kept: seq<string>) returns (a: int)
    ensures 0 <= a <= a + |DropTrailingBlanks(DropLeadingBlanks(kept))| <= |kept|
    ensures DropTrailingBlanks(DropLeadingBlanks(kept)) == kept[a..a + |DropTrailingBlanks(DropLeadingBlanks(kept))|]
  {
    var d := DropLeadingBlanks(kept);
    var ls := DropTrailingBlanks(d);
    a := |kept| - |d|;
    assert d == kept[a..];
    assert ls == d[..|ls|];
  }

  /** Trimming the blank lines at both ends keeps every non-blank line. */
  lemma TrimKeepsNonBlank(kept: seq<string>)
    ensures NonBlank(DropTrailingBlanks(DropLeadingBlanks(kept))) == NonBlank(kept)
  {
    DropLeadingKeepsNonBlank(kept);
    DropTrailingKeepsNonBlank(DropLeadingBlanks(kept));
  }

  /** Trimming keeps only lines of the input and makes no run of blanks. */
  lemma TrimKeepsShape(kept: seq<string>)
    ensures var ls := DropTrailingBlanks(DropLeadingBlanks(kept));
      && (NoThreeBlanks(kept) ==> NoThreeBlanks(ls))
  {
    var d := DropLeadingBlanks(kept);
    var ls := DropTrailingBlanks(d);
    if NoThreeBlanks(kept) {
      SliceNoThreeBlanks(kept, |kept| - |d|, |kept|);
      assert d == kept[|kept| - |d|..|kept|];
      SliceNoThreeBlanks(d, 0, |ls|);
      assert ls == d[0..|ls|];
    }
  }

  /** Trimming keeps stripped, single lines stripped and single. */
  lemma TrimKeepsClean(kept: seq<string>)
    requires forall i :: 0 <= i < |kept| ==> IsStripped(kept[i]) && NoLineBreak(kept[i])
    ensures var ls := DropTrailingBlanks(DropLeadingBlanks(kept));
      forall i :: 0 <= i < |ls| ==> IsStripped(ls[i]) && NoLineBreak(ls[i])
  {
    var a := TrimIsSlice(kept);
    var ls := DropTrailingBlanks(DropLeadingBlanks(kept));
    forall i | 0 <= i < |ls| ensures IsStripped(ls[i]) && NoLineBreak(ls[i]) {
      assert ls[i] == kept[a + i];
    }
  }

  /** The lines kept from `a` on end with the lines kept from any later
      `i` on. */
  lemma {:induction false} KeptFromSuffix(lines: seq<string>, a: int, i: int) returns (pre: seq<string>)
    requires 0 <= a <= i <= |lines|
    ensures KeptFrom(lines, a) == pre + KeptFrom(lines, i)
    decreases i - a
  {
    if a == i {
      pre := [];
    } else {
      var pre1 := KeptFromSuffix(lines, a + 1, i);
      pre := (if KeepsLine(lines, a) then [lines[a]] else []) + pre1;
    }
  }

  /** A single blank line after a non-blank one is kept. */
  lemma KeptSingleBlank(lines: seq<string>, s: int)
    requires 1 <= s < |lines| - 1
    requires lines[s - 1] != "" && lines[s] == ""
    ensures KeptFrom(lines, s) == [""] + KeptFrom(lines, s + 1)
  {
    assert KeepsLine(lines, s);
  }

  /** Blank lines from `a` up to but not including `b`. */
  predicate BlankSpan(lines: seq<string>, a: int, b: int)
    requires 0 <= a <= b <= |lines|
  {
    forall k :: a <= k < b ==> lines[k] == ""
  }

  /** Of the blank lines from `a` up to a non-blank `lines[e]`, with a
      blank line before `a`, only the last is kept: the others have blank
      neighbours on both sides. */
  lemma {:induction false} BlankRunTail(lines: seq<string>, a: int, e: int)
    requires 1 <= a < e < |lines|
    requires lines[a - 1] == "" && lines[e] != ""
    requires BlankSpan(lines, a, e)
    ensures KeptFrom(lines, a) == [""] + KeptFrom(lines, e)
    decreases e - a
  {
    assert lines[a] == "";
    if a + 1 == e {
      assert KeepsLine(lines, a);
    } else {
      assert lines[a + 1] == "" && !KeepsLine(lines, a);
      BlankRunTail(lines, a + 1, e);
    }
  }

  /** In a run of at least two blank lines between two non-blank ones, the
      first and the last blank are kept and the ones between dropped. */
  lemma KeptLongBlankRun(lines: seq<string>, s: int, e: int)
    requires 1 <= s && s + 1 < e < |lines|
    requires lines[s - 1] != "" && lines[e] != ""
    requires BlankSpan(lines, s, e)
    ensures KeptFrom(lines, s) == ["", ""] + KeptFrom(lines, e)
  {
    assert lines[s] == "";
    KeptSingleBlank(lines, s);
    BlankRunTail(lines, s + 1, e);
    KeptChain(KeptFrom(lines, s), KeptFrom(lines, s + 1), KeptFrom(lines, e));
  }

  lemma KeptChain(k0: seq<string>, k1: seq<string>, k2: seq<string>)
    requires k0 == [""] + k1 && k1 == [""] + k2
    ensures k0 == ["", ""] + k2
  {
  }

  /** A run of `e - s` blank lines between the non-blank `lines[s - 1]` and
      `lines[e]` keeps one blank line if it is one line long and two
      otherwise, the first and the last of the run. */
  lemma KeptBlankRun(lines: seq<string>, s: int, e: int)
    requires 1 <= s < e < |lines|
    requires lines[s - 1] != "" && lines[e] != ""
    requires BlankSpan(lines, s, e)
    ensures KeptFrom(lines, s - 1) == [lines[s - 1]] + (if e - s == 1 then [""] else ["", ""]) + KeptFrom(lines, e)
  {
    assert KeepsLine(lines, s - 1);
    if e - s == 1 {
      KeptSingleBlank(lines, s);
    } else {
      KeptLongBlankRun(lines, s, e);
    }
  }

  /** The run rule of `clean_text` for any input: between two non-blank
      lines `x == lines[s - 1]` and `y == lines[e]` with `n == e - s >= 1`
      blank lines in between, the kept lines hold `x`, then `min(n, 2)`
      blank lines, then `y`, one after the other. */
  lemma BlankRunKept(lines: seq<string>, s: int, e: int) returns (pre: seq<string>, post: seq<string>)
    requires 1 <= s < e < |lines|
    requires lines[s - 1] != "" && lines[e] != ""
    requires forall k :: s <= k < e ==> lines[k] == ""
    ensures KeptFrom(lines, 0) == pre + [lines[s - 1]] + (if e - s == 1 then [""] else ["", ""]) + [lines[e]] + post
  {
    pre := KeptFromSuffix(lines, 0, s - 1);
    KeptBlankRun(lines, s, e);
    assert KeepsLine(lines, e);
    post := KeptFrom(lines, e + 1);
  }

  /** Four blank lines between two lines of text come out as two blank
      lines: the filter keeps a blank line next to text, so a run of
      blank lines shrinks to at most two, not to one. */
  lemma BlankRunShrinksToTwo()
    ensures CleanText("a\n\n\n\nb") == "a\n\n\nb"
  {
    OutputExample();
    CleanTextJoinsOutputLines("a\n\n\n\nb");
    JoinExample();
  }

  lemma KeptLinesExample()
    ensures KeptLines("a\n\n\n\nb") == ["a", "", "", "b"]
  {
    SplitExample();
    StripExample();
    KeepExample();
  }

  lemma OutputExample()
    ensures OutputLines("a\n\n\n\nb") == ["a", "", "", "b"]
  {
    KeptLinesExample();
    var kept := ["a", "", "", "b"];
    assert kept[0] != "" && kept[3] != "";
  }

  lemma JoinExample()
    ensures Join(["a", "", "", "b"], "\n") == "a\n\n\nb"
  {
    var ls := ["a", "", "", "b"];
    assert ls[1..] == ["", "", "b"];
    assert ls[1..][1..] == ["", "b"];
    assert ls[1..][1..][1..] == ["b"];
  }

  lemma SplitExample()
    ensures SplitLines("a\n\n\n\nb") == ["a", "", "", "", "b"]
  {
    SplitBlanksExample();
    SplitBreakStep("\n\n\n\nb", "a", "\n\n\nb");
    assert "a\n\n\n\nb"[1..] == "\n\n\n\nb" && "" + ['a'] == "a";
  }

  lemma SplitBlanksExample()
    ensures SplitFrom("\n\n\nb", "") == ["", "", "", "b"]
  {
    assert "b"[1..] == "" && "" + ['b'] == "b";
    SplitBreakStep("\nb", "", "b");
    SplitBreakStep("\n\nb", "", "\nb");
    SplitBreakStep("\n\n\nb", "", "\n\nb");
  }

  /** A leading `\n` ends the current line. */
  lemma SplitBreakStep(s: string, line: string, rest: string)
    requires NoLineBreak(line) && s == "\n" + rest
    ensures SplitFrom(s, line) == [line] + SplitFrom(rest, "")
  {
    assert s[1..] == rest;
  }

  /** Lines with nothing to strip are left as they are. */
  lemma StripLinesStripped(ls: seq<string>)
    requires forall i :: 0 <= i < |ls| ==> IsStripped(ls[i])
    ensures StripLines(ls) == ls
  {
    var r := StripLines(ls);
    forall i | 0 <= i < |ls| ensures r[i] == ls[i] {
      StripStripped(ls[i]);
    }
  }

  lemma StripExample()
    ensures StripLines(["a", "", "", "", "b"]) == ["a", "", "", "", "b"]
  {
    var ls := ["a", "", "", "", "b"];
    assert !IsSpace('a') && !IsSpace('b');
    assert IsStripped(ls[0]) && IsStripped(ls[4]);
    StripLinesStripped(ls);
  }

  lemma KeepExample()
    ensures KeptFrom(["a", "", "", "", "b"], 0) == ["a", "", "", "b"]
  {
    var lines := ["a", "", "", "", "b"];
    assert KeptFrom(lines, 4) == ["b"];
    assert KeptFrom(lines, 3) == ["", "b"];
    assert KeptFrom(lines, 2) == ["", "b"];
    assert KeptFrom(lines, 1) == ["", "", "b"];
  }
}
