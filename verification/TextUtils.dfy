/** The two text helpers: uncommenting a block and collecting non-empty lines. */
module TextUtils {
  import opened Api

  const NL: string := "\n"

  predicate OneLine(s: string) {
    '\n' !in s
  }

  predicate OneLineEach(lines: seq<string>) {
    forall l :: l in lines ==> OneLine(l)
  }

  function Join(lines: seq<string>): string {
    if lines == [] then ""
    else if |lines| == 1 then lines[0]
    else lines[0] + NL + Join(lines[1..])
  }

  /** The length of the first line. */
  function Cut(s: string): (n: nat)
    ensures n <= |s| && OneLine(s[..n])
    ensures n < |s| ==> s[n] == '\n'
  {
    if s == "" || s[0] == '\n' then 0 else 1 + Cut(s[1..])
  }

  /** strings.Split at newlines. */
  function Split(s: string): seq<string>
    decreases |s|
  {
    var n := Cut(s);
    if n == |s| then [s] else [s[..n]] + Split(s[n + 1..])
  }

  function DropCR(s: string): string {
    if s != "" && s[|s| - 1] == '\r' then s[..|s| - 1] else s
  }

  /** The scanner's buffer, in bytes: a line must leave room in it for one more byte. */
  const BUFFER: nat := 65536

  predicate Fits(line: string) {
    |line| < BUFFER
  }

  /** The lines a bufio.Scanner delivers: without carriage returns, no empty line at the very end, and none from the
      first line on that does not fit, which ends the scan like the end of the text. */
  function Scan(s: string): seq<string>
    decreases |s|
  {
    var n := Cut(s);
    if s == "" || !Fits(s[..n]) then []
    else [DropCR(s[..n])] + (if n == |s| then [] else Scan(s[n + 1..]))
  }

  function TrimPrefix(s: string, prefix: string): string {
    if prefix <= s then s[|prefix|..] else s
  }

  predicate OccursAt(s: string, target: string, i: nat) {
    i + |target| <= |s| && s[i..i + |target|] == target
  }

  /** strings.Index: the first occurrence. */
  function Index(s: string, target: string): (r: Option<nat>)
    ensures r.Some? ==> OccursAt(s, target, r.value) && forall i :: 0 <= i < r.value ==> !OccursAt(s, target, i)
    ensures r.None? ==> forall i :: 0 <= i <= |s| ==> !OccursAt(s, target, i)
  {
    IndexFrom(s, target, 0)
  }

  function IndexFrom(s: string, target: string, from: nat): (r: Option<nat>)
    requires from <= |s|
    ensures r.Some? ==> OccursAt(s, target, r.value) && forall i :: from <= i < r.value ==> !OccursAt(s, target, i)
    ensures r.None? ==> forall i :: from <= i <= |s| ==> !OccursAt(s, target, i)
    decreases |s| - from
  {
    if OccursAt(s, target, from) then Some(from)
    else if from == |s| then None
    else IndexFrom(s, target, from + 1)
  }

  function TrimAll(lines: seq<string>, prefix: string): seq<string> {
    if lines == [] then [] else [TrimPrefix(lines[0], prefix)] + TrimAll(lines[1..], prefix)
  }

  function PrefixAll(lines: seq<string>, prefix: string): seq<string> {
    if lines == [] then [] else [prefix + lines[0]] + PrefixAll(lines[1..], prefix)
  }

  /** The text with `len` characters from position `at` on replaced. */
  function Spliced(content: string, at: nat, len: nat, middle: string): string
    requires at + len <= |content|
  {
    content[..at] + middle + content[at + len..]
  }

  datatype Edit = NotFound | Untouched | Rewritten(content: string)

  /** What UncommentCode makes of a text. If the scanner delivers no line, because the target is empty or its first
      line does not fit, nothing is written. */
  function Uncommented(content: string, target: string, prefix: string): Edit {
    var at := Index(content, target);
    var lines := Scan(target);
    if at.None? then NotFound
    else if lines == [] then Untouched
    else Rewritten(Spliced(content, at.value, |target|, Join(TrimAll(lines, prefix))))
  }

  // ----- splitting undoes joining -----

  lemma {:induction false} CutAtNewline(s: string, rest: string)
    requires OneLine(s)
    ensures Cut(s) == |s|
    ensures Cut(s + NL + rest) == |s|
  {
    var t := s + NL + rest;
    if s != "" {
      assert t[0] == s[0] && t[1..] == s[1..] + NL + rest;
      assert s[0] in s;
      CutAtNewline(s[1..], rest);
    } else {
      assert t[0] == '\n';
    }
  }

  lemma {:induction false} SplitJoin(lines: seq<string>)
    requires lines != [] && OneLineEach(lines)
    ensures Split(Join(lines)) == lines
  {
    CutAtNewline(lines[0], Join(lines[1..]));
    assert lines[0] in lines;
    if |lines| > 1 {
      SplitJoin(lines[1..]);
      var s := Join(lines);
      assert s[..|lines[0]|] == lines[0] && s[|lines[0]| + 1..] == Join(lines[1..]);
    }
  }

  function NonEmpty(lines: seq<string>): seq<string> {
    if lines == [] then []
    else (if lines[0] != "" then [lines[0]] else []) + NonEmpty(lines[1..])
  }

  lemma {:induction false} NonEmptyBound(lines: seq<string>)
    ensures |NonEmpty(lines)| <= |lines|
    ensures NonEmpty(lines) == lines <==> "" !in lines
  {
    if lines != [] {
      NonEmptyBound(lines[1..]);
      assert lines == [lines[0]] + lines[1..];
      if lines[0] == "" {
        assert |NonEmpty(lines)| < |lines|;
      } else {
        assert NonEmpty(lines)[1..] == NonEmpty(lines[1..]);
      }
    }
  }

  /** The lines left out are the empty ones and no others. */
  lemma {:induction false} NonEmptyKeepsOrder(lines: seq<string>) returns (at: seq<nat>)
    ensures PickedAt(NonEmpty(lines), lines, at)
    ensures forall j: nat :: j in at <==> j < |lines| && lines[j] != ""
  {
    at := [];
    if lines != [] {
      at := NonEmptyKeepsOrder(lines[1..]);
      at := PickedNext(NonEmpty(lines[1..]), lines[1..], at, lines[0], lines[0] != "");
      assert lines == [lines[0]] + lines[1..];
    }
  }

  /** Every text is its lines joined. */
  lemma {:induction false} JoinSplit(s: string)
    ensures Join(Split(s)) == s && Split(s) != [] && OneLineEach(Split(s))
    decreases |s|
  {
    var n := Cut(s);
    if n < |s| {
      JoinSplit(s[n + 1..]);
      assert Split(s)[0] == s[..n] && Split(s)[1..] == Split(s[n + 1..]);
      assert s == s[..n] + NL + s[n + 1..];
    } else {
      assert s[..n] == s;
    }
  }

  /** The non-empty lines of joined lines are those lines exactly when none of them is empty. */
  lemma NonEmptyLinesRoundTripIff(lines: seq<string>)
    requires OneLineEach(lines)
    ensures NonEmpty(Split(Join(lines))) == NonEmpty(lines)
    ensures NonEmpty(Split(Join(lines))) == lines <==> "" !in lines
  {
    if lines == [] {
      assert Split("") == [""];
      assert [""][1..] == [];
    } else {
      SplitJoin(lines);
    }
    NonEmptyBound(lines);
  }

  // ----- uncommenting undoes commenting -----

  function DropAll(lines: seq<string>): seq<string> {
    if lines == [] then [] else [DropCR(lines[0])] + DropAll(lines[1..])
  }

  /** How many lines stand in front of the first that does not fit. */
  function FitCount(lines: seq<string>): (n: nat)
    ensures n <= |lines|
    ensures forall i :: 0 <= i < n ==> Fits(lines[i])
    ensures n < |lines| ==> !Fits(lines[n])
  {
    if lines == [] || !Fits(lines[0]) then 0 else 1 + FitCount(lines[1..])
  }

  lemma ScanFirst(lines: seq<string>)
    requires lines != [] && OneLine(lines[0]) && (lines[0] != "" || |lines| > 1)
    ensures Scan(Join(lines)) ==
            if !Fits(lines[0]) then []
            else [DropCR(lines[0])] + (if |lines| == 1 then [] else Scan(Join(lines[1..])))
  {
    var first, s := lines[0], Join(lines);
    CutAtNewline(first, Join(lines[1..]));
    assert s[..|first|] == first && s != "";
    if |lines| > 1 {
      assert s[|first| + 1..] == Join(lines[1..]);
    }
  }

  /** The lines of a text as an editor counts them: nothing stands behind a last newline. */
  function Shown(lines: seq<string>): seq<string>
    requires lines != []
  {
    if lines[|lines| - 1] == "" then lines[..|lines| - 1] else lines
  }

  lemma ShownUnfolds(lines: seq<string>)
    requires lines != []
    ensures |lines| > 1 ==>
      DropAll(Shown(lines)) == [DropCR(lines[0])] + DropAll(Shown(lines[1..]))
    ensures |lines| == 1 ==> DropAll(Shown(lines)) == if lines[0] == "" then [] else [DropCR(lines[0])]
  {
    var shown := Shown(lines);
    if |lines| > 1 {
      assert shown[0] == lines[0] && shown[1..] == Shown(lines[1..]);
    } else if lines[0] != "" {
      assert DropAll(shown) == [DropCR(lines[0])] + DropAll(shown[1..]);
    }
  }

  /** The scanner delivers all lines, blank ones included, without their carriage returns. */
  lemma {:induction false} ScanShown(lines: seq<string>)
    requires lines != [] && OneLineEach(lines) && forall l :: l in lines ==> Fits(l)
    ensures Scan(Join(lines)) == DropAll(Shown(lines))
  {
    var rest := lines[1..];
    assert lines[0] in lines;
    ShownUnfolds(lines);
    if rest != [] {
      ScanFirst(lines);
      ScanShown(rest);
    } else if lines[0] != "" {
      ScanFirst(lines);
    }
  }

  lemma {:induction false} TrimmedAt(lines: seq<string>, prefix: string)
    ensures |TrimAll(DropAll(lines), prefix)| == |lines|
    ensures forall i :: 0 <= i < |lines| ==> TrimAll(DropAll(lines), prefix)[i] == TrimPrefix(DropCR(lines[i]), prefix)
  {
    if lines != [] {
      TrimmedAt(lines[1..], prefix);
      var d := DropAll(lines);
      assert d[0] == DropCR(lines[0]) && d[1..] == DropAll(lines[1..]);
    }
  }

  /** What uncommenting does to any block of lines that fit: each line loses a carriage return at its end and then the
      prefix, if it has it; the text outside the first occurrence of the block stays. A newline at the end of the
      block is lost. */
  lemma UncommentsEachLine(content: string, lines: seq<string>, prefix: string) returns (out: seq<string>)
    requires lines != [] && OneLineEach(lines) && Shown(lines) != [] && forall l :: l in lines ==> |l| < 65536
    requires Index(content, Join(lines)).Some?
    ensures var at := Index(content, Join(lines)).value;
            Uncommented(content, Join(lines), prefix) ==
            Rewritten(content[..at] + Join(out) + content[at + |Join(lines)|..])
    ensures |out| == |Shown(lines)|
    ensures forall i :: 0 <= i < |out| ==>
      var l := if lines[i] != "" && lines[i][|lines[i]| - 1] == '\r' then lines[i][..|lines[i]| - 1] else lines[i];
      out[i] == if prefix <= l then l[|prefix|..] else l
  {
    ScanShown(lines);
    var shown := Shown(lines);
    out := TrimAll(DropAll(shown), prefix);
    TrimmedAt(shown, prefix);
    DropAllLength(shown);
    forall i | 0 <= i < |out|
      ensures out[i] == TrimPrefix(DropCR(lines[i]), prefix)
    {
      assert shown[i] == lines[i];
    }
  }

  lemma {:induction false} ScanJoin(lines: seq<string>)
    requires lines != [] && OneLineEach(lines) && "" !in lines
    ensures Scan(Join(lines)) == DropAll(lines[..FitCount(lines)])
  {
    var rest := lines[1..];
    assert lines[0] in lines;
    ScanFirst(lines);
    var front := lines[..FitCount(lines)];
    if Fits(lines[0]) {
      assert front[0] == lines[0] && front[1..] == rest[..FitCount(rest)];
      if rest != [] {
        ScanJoin(rest);
      }
    }
  }

  /** The line survives: it does not end in a carriage return once commented, which the scanner would drop. */
  predicate Survives(line: string, prefix: string) {
    var l := prefix + line;
    l == "" || l[|l| - 1] != '\r' || (prefix == "\r" && line == "")
  }

  lemma LineSurvivesIff(line: string, prefix: string)
    ensures TrimPrefix(DropCR(prefix + line), prefix) == line <==> Survives(line, prefix)
  {
    var l := prefix + line;
    var d := DropCR(l);
    if l != "" && l[|l| - 1] == '\r' {
      if line != "" {
        assert d == prefix + line[..|line| - 1];
        assert TrimPrefix(d, prefix) == line[..|line| - 1];
      } else {
        assert d == prefix[..|prefix| - 1];
      }
    } else {
      assert l[|prefix|..] == line;
    }
  }

  lemma {:induction false} LinesSurviveIff(lines: seq<string>, prefix: string)
    ensures |TrimAll(DropAll(PrefixAll(lines, prefix)), prefix)| == |lines|
    ensures TrimAll(DropAll(PrefixAll(lines, prefix)), prefix) == lines <==>
            forall l :: l in lines ==> Survives(l, prefix)
  {
    if lines != [] {
      LineSurvivesIff(lines[0], prefix);
      LinesSurviveIff(lines[1..], prefix);
      assert lines == [lines[0]] + lines[1..];
      var p := PrefixAll(lines, prefix);
      assert p[0] == prefix + lines[0] && p[1..] == PrefixAll(lines[1..], prefix);
      var d := DropAll(p);
      assert d[0] == DropCR(p[0]) && d[1..] == DropAll(p[1..]);
      assert TrimAll(d, prefix)[1..] == TrimAll(d[1..], prefix);
    }
  }

  lemma {:induction false} PrefixedLines(lines: seq<string>, prefix: string)
    requires OneLineEach(lines) && OneLine(prefix)
    ensures OneLineEach(PrefixAll(lines, prefix)) && (prefix != "" ==> "" !in PrefixAll(lines, prefix))
    ensures OneLineEach(TrimAll(DropAll(PrefixAll(lines, prefix)), prefix))
  {
    if lines != [] {
      assert lines[0] in lines;
      PrefixedLines(lines[1..], prefix);
      var p := PrefixAll(lines, prefix);
      assert p[0] == prefix + lines[0] && p[1..] == PrefixAll(lines[1..], prefix);
      assert OneLine(p[0]) && OneLine(DropCR(p[0])) && OneLine(TrimPrefix(DropCR(p[0]), prefix));
    }
  }

  /** A commented block the scanner gets through, as the trimming leaves it. */
  function Back(lines: seq<string>, prefix: string): seq<string> {
    TrimAll(DropAll(PrefixAll(lines, prefix)), prefix)
  }

  lemma {:induction false} PrefixedAt(lines: seq<string>, prefix: string, n: nat)
    requires n <= |lines|
    ensures |PrefixAll(lines, prefix)| == |lines|
    ensures forall i :: 0 <= i < |lines| ==> PrefixAll(lines, prefix)[i] == prefix + lines[i]
    ensures PrefixAll(lines, prefix)[..n] == PrefixAll(lines[..n], prefix)
  {
    if lines != [] {
      PrefixedAt(lines[1..], prefix, if n == 0 then 0 else n - 1);
      var p := PrefixAll(lines, prefix);
      assert p[0] == prefix + lines[0] && p[1..] == PrefixAll(lines[1..], prefix);
      if n > 0 {
        assert lines[..n][0] == lines[0] && lines[..n][1..] == lines[1..][..n - 1];
        assert p[..n] == [p[0]] + p[1..][..n - 1];
      }
    }
  }

  /** What comes back is what fits, trimmed. */
  lemma UncommentsToBack(lines: seq<string>, prefix: string)
    requires lines != [] && OneLineEach(lines) && prefix != "" && OneLine(prefix)
    ensures var n := FitCount(PrefixAll(lines, prefix));
            && n <= |lines|
            && TrimAll(Scan(Join(PrefixAll(lines, prefix))), prefix) == Back(lines[..n], prefix)
            && (Scan(Join(PrefixAll(lines, prefix))) == [] <==> n == 0)
  {
    var p := PrefixAll(lines, prefix);
    var n := FitCount(p);
    PrefixedLines(lines, prefix);
    PrefixedAt(lines, prefix, 0);
    PrefixedAt(lines, prefix, n);
    ScanJoin(p);
    DropAllLength(p[..n]);
  }

  lemma {:induction false} DropAllLength(lines: seq<string>)
    ensures |DropAll(lines)| == |lines|
  {
    if lines != [] {
      DropAllLength(lines[1..]);
    }
  }

  lemma JoinedBackIff(lines: seq<string>, prefix: string, n: nat)
    requires OneLineEach(lines) && OneLine(prefix) && 0 < n <= |lines|
    ensures Join(Back(lines[..n], prefix)) == Join(lines) <==>
            n == |lines| && forall l :: l in lines ==> Survives(l, prefix)
  {
    var front := lines[..n];
    assert forall l :: l in front ==> l in lines;
    PrefixedLines(front, prefix);
    LinesSurviveIff(front, prefix);
    if Join(Back(front, prefix)) == Join(lines) {
      SplitJoin(Back(front, prefix));
      SplitJoin(lines);
    }
    assert n == |lines| ==> front == lines;
  }

  lemma FitCountIff(lines: seq<string>, prefix: string)
    ensures FitCount(PrefixAll(lines, prefix)) == |lines| <==> forall l :: l in lines ==> Fits(prefix + l)
  {
    var p := PrefixAll(lines, prefix);
    PrefixedAt(lines, prefix, 0);
    var n := FitCount(p);
    if n < |lines| {
      assert lines[n] in lines && p[n] == prefix + lines[n];
    } else {
      forall l | l in lines
        ensures Fits(prefix + l)
      {
        var i :| 0 <= i < |lines| && lines[i] == l;
        assert Fits(p[i]);
      }
    }
  }

  lemma SplicedSame(content: string, at: nat, len: nat, a: string, b: string)
    requires at + len <= |content|
    ensures Spliced(content, at, len, a) == Spliced(content, at, len, b) <==> a == b
  {
    var x, y := Spliced(content, at, len, a), Spliced(content, at, len, b);
    if x == y {
      assert |a| == |b|;
      assert x[at..at + |a|] == a && y[at..at + |b|] == b;
    }
  }

  /** A text that holds a commented block comes back with the block uncommented and everything outside the block's
      first occurrence unchanged, exactly when every commented line fits into the scanner's buffer and survives it.
      Behind a line that does not fit, the rest of the block is lost without an error. */
  lemma UncommentRoundTripIff(content: string, lines: seq<string>, prefix: string)
    requires lines != [] && OneLineEach(lines) && prefix != "" && OneLine(prefix)
    requires Index(content, Join(PrefixAll(lines, prefix))).Some?
    ensures var target := Join(PrefixAll(lines, prefix));
            var at := Index(content, target).value;
            Uncommented(content, target, prefix) == Rewritten(Spliced(content, at, |target|, Join(lines))) <==>
            forall l :: l in lines ==> Fits(prefix + l) && Survives(l, prefix)
  {
    var target := Join(PrefixAll(lines, prefix));
    var n := FitCount(PrefixAll(lines, prefix));
    UncommentsToBack(lines, prefix);
    FitCountIff(lines, prefix);
    if n > 0 {
      JoinedBackIff(lines, prefix, n);
      SplicedSame(content, Index(content, target).value, |target|, Join(Back(lines[..n], prefix)), Join(lines));
    }
  }

  lemma {:induction false} FitCountAt(lines: seq<string>, n: nat)
    requires n < |lines| && !Fits(lines[n]) && forall i :: 0 <= i < n ==> Fits(lines[i])
    ensures FitCount(lines) == n
  {
    if n > 0 {
      FitCountAt(lines[1..], n - 1);
    }
  }

  /** A line too long for the scanner takes all that follows it in the block away, and no error tells. */
  lemma TailIsLost(content: string, front: seq<string>, long: string, behind: seq<string>, prefix: string)
    requires front != [] && prefix != "" && OneLine(prefix) && OneLineEach(front + [long] + behind)
    requires (forall l :: l in front ==> Fits(prefix + l) && Survives(l, prefix)) && |prefix + long| >= 65536
    requires Index(content, Join(PrefixAll(front + [long] + behind, prefix))).Some?
    ensures var target := Join(PrefixAll(front + [long] + behind, prefix));
            var at := Index(content, target).value;
            Uncommented(content, target, prefix) == Rewritten(Spliced(content, at, |target|, Join(front)))
  {
    var lines := front + [long] + behind;
    assert lines[..|front|] == front && lines[|front|] == long;
    PrefixedAt(lines, prefix, 0);
    forall i | 0 <= i < |front|
      ensures Fits(PrefixAll(lines, prefix)[i])
    {
      assert lines[i] in front;
    }
    FitCountAt(PrefixAll(lines, prefix), |front|);
    UncommentsToBack(lines, prefix);
    LinesSurviveIff(front, prefix);
  }

  /** A file of three commented lines, the second longer than the buffer, is left with the first line alone. */
  lemma TailLossOccurs()
    ensures var lines := ["a", seq(BUFFER, i => 'b'), "c"];
            var content := Join(PrefixAll(lines, "#"));
            && Index(content, content) == Some(0)
            && Uncommented(content, content, "#") == Rewritten("a")
  {
    var long := seq(BUFFER, i => 'b');
    var lines := ["a", long, "c"];
    var content := Join(PrefixAll(lines, "#"));
    assert lines == ["a"] + [long] + ["c"];
    assert OccursAt(content, content, 0);
    assert Survives("a", "#");
    TailIsLost(content, ["a"], long, ["c"], "#");
    assert Join(["a"]) == "a" && Spliced(content, 0, |content|, "a") == "a";
  }

  // ----- the helpers themselves -----

  method GetNonEmptyLines(output: string) returns (res: seq<string>)
    ensures res == NonEmpty(Split(output))
  {
    res := [];
    var elements := Split(output);
    for i := 0 to |elements|
      invariant res + NonEmpty(elements[i..]) == NonEmpty(elements)
    {
      var more := [];
      if elements[i] != "" {
        more := [elements[i]];
      }
      assert elements[i..][1..] == elements[i + 1..];
      Regroup(res, more, NonEmpty(elements[i + 1..]));
      res := res + more;
    }
    assert elements[|elements|..] == [];
  }

  lemma {:induction false} JoinMore(lines: seq<string>, l: string)
    requires lines != []
    ensures Join(lines + [l]) == Join(lines) + NL + l
  {
    if |lines| > 1 {
      assert (lines + [l])[1..] == lines[1..] + [l];
      JoinMore(lines[1..], l);
    }
  }

  lemma {:induction false} TrimAllMore(lines: seq<string>, l: string, prefix: string)
    ensures TrimAll(lines + [l], prefix) == TrimAll(lines, prefix) + [TrimPrefix(l, prefix)]
  {
    if lines == [] {
      assert [] + [l] == [l];
      assert [l][1..] == [];
    } else {
      assert (lines + [l])[1..] == lines[1..] + [l];
      TrimAllMore(lines[1..], l, prefix);
    }
  }

  function Ended(lines: seq<string>): string {
    if lines == [] then "" else Join(lines) + NL
  }

  lemma WriteLine(lines: seq<string>, i: nat, prefix: string)
    requires i < |lines|
    ensures Ended(TrimAll(lines[..i], prefix)) + TrimPrefix(lines[i], prefix) == Join(TrimAll(lines[..i + 1], prefix))
    ensures TrimAll(lines[..i + 1], prefix) != []
  {
    var done := TrimAll(lines[..i], prefix);
    var l := TrimPrefix(lines[i], prefix);
    TrimAllMore(lines[..i], lines[i], prefix);
    assert lines[..i + 1] == lines[..i] + [lines[i]];
    if done != [] {
      JoinMore(done, l);
    }
  }

  /** The scanner loop: a newline before every line but the first. */
  method WriteLines(before: string, lines: seq<string>, prefix: string) returns (out: string)
    requires lines != []
    ensures out == before + Join(TrimAll(lines, prefix))
  {
    out := before;
    var i := 0;
    while true
      invariant 0 <= i < |lines|
      invariant out == before + Ended(TrimAll(lines[..i], prefix))
      decreases |lines| - i
    {
      ghost var ended := Ended(TrimAll(lines[..i], prefix));
      WriteLine(lines, i, prefix);
      out := out + TrimPrefix(lines[i], prefix);
      assert out == before + (ended + TrimPrefix(lines[i], prefix));
      ghost var joined := Join(TrimAll(lines[..i + 1], prefix));
      i := i + 1;
      if i == |lines| {
        break;
      }
      out := out + NL;
      assert out == before + (joined + NL);
    }
    assert lines[..i] == lines;
  }

  method EditContent(content: string, target: string, prefix: string) returns (edit: Edit)
    ensures edit == Uncommented(content, target, prefix)
  {
    var at := Index(content, target);
    if at.None? {
      return NotFound;
    }
    var lines := Scan(target);
    if |lines| == 0 {
      return Untouched;
    }
    var out := WriteLines(content[..at.value], lines, prefix);
    edit := Rewritten(out + content[at.value + |target|..]);
  }

  /** A file; None if it cannot be read. */
  class TextFile {
    var content: Option<string>

    constructor (content: Option<string>)
      ensures this.content == content
    {
      this.content := content;
    }
  }

  /** Reads, edits and writes back. An unreadable file, a missing target and a refused write are errors and leave the
      file as it was. */
  method UncommentCode(file: TextFile, target: string, prefix: string, writable: bool) returns (ok: bool)
    modifies file
    ensures old(file.content).None? ==> !ok && file.content == None
    ensures old(file.content).Some? ==>
      match Uncommented(old(file.content).value, target, prefix)
      case NotFound => !ok && file.content == old(file.content)
      case Untouched => ok && file.content == old(file.content)
      case Rewritten(text) => ok == writable && file.content == if writable then Some(text) else old(file.content)
  {
    if file.content.None? {
      return false;
    }
    var edit := EditContent(file.content.value, target, prefix);
    match edit
    case NotFound => ok := false;
    case Untouched => ok := true;
    case Rewritten(text) =>
      ok := writable;
      if writable {
        file.content := Some(text);
      }
  }
}
