/** `calculate_accuracy.py`: per-line extraction of `mIoU` and `pixAcc` from an evaluation
    log, and their averages over all lines of the file. */
module Accuracy {
  import opened Wrappers
  import opened Errors
  import opened Text
  import opened Floats

  /** One parsed line, in the order the script returns it: `(mIoU, pixAcc)`. */
  datatype Record = Record(miou: real, pixAcc: real)

  /** A metric name as the script spells it in its patterns: it ends in a space. */
  type Label = s: string | |s| > 0 && s[|s| - 1] == ' ' witness " "

  const PixAccLabel: Label := "pixAcc: "
  const MiouLabel: Label := "mIoU: "

  /** The length of the run of `[\d.]` characters starting at `i` (the greedy `+`). */
  function RunLength(s: string, i: nat): (n: nat)
    requires i <= |s|
    ensures i + n <= |s|
    ensures forall j :: i <= j < i + n ==> IsNumChar(s[j])
    ensures i + n < |s| ==> !IsNumChar(s[i + n])
    decreases |s| - i
  {
    if i < |s| && IsNumChar(s[i]) then 1 + RunLength(s, i + 1) else 0
  }

  /** The greedy run is the one that ends at the first character outside `[\d.]`. */
  lemma {:induction false} RunLengthIs(s: string, i: nat, k: nat)
    requires i + k <= |s| && AllNumChars(s[i..i + k]) && (i + k == |s| || !IsNumChar(s[i + k]))
    ensures RunLength(s, i) == k
    decreases k
  {
    if k > 0 {
      var run := s[i..i + k];
      assert run[0] == s[i];
      assert s[i + 1..i + k] == run[1..];
      RunLengthIs(s, i + 1, k - 1);
    }
  }

  /** The pattern `name[\d.]+` matches at position `p` of `line`. */
  predicate MatchesAt(line: string, name: string, p: nat)
  {
    p + |name| < |line| && line[p..p + |name|] == name && IsNumChar(line[p + |name|])
  }

  /** The leftmost match position at or after `from`, as `re.search` finds it. */
  function SearchFrom(line: string, name: string, from: nat): (r: Option<nat>)
    requires from <= |line|
    ensures r.Some? ==> from <= r.value < |line| && MatchesAt(line, name, r.value)
    ensures forall q :: from <= q < |line| && (r.None? || q < r.value) ==> !MatchesAt(line, name, q)
    decreases |line| - from
  {
    if from == |line| then None
    else if MatchesAt(line, name, from) then Some(from)
    else SearchFrom(line, name, from + 1)
  }

  /** The run of `[\d.]` characters that starts right after the name at a match. */
  function RunAfter(line: string, name: string, p: nat): string
    requires MatchesAt(line, name, p)
  {
    line[p + |name|..p + |name| + RunLength(line, p + |name|)]
  }

  /** That run is nonempty and made of digits and dots only. */
  lemma RunAfterShape(line: string, name: string, p: nat)
    requires MatchesAt(line, name, p)
    ensures |RunAfter(line, name, p)| > 0 && AllNumChars(RunAfter(line, name, p))
  {
  }

  /** `float(re.search(name + r'[\d.]+', line).group(0).split(' ')[-1])` without the
      `float`: the number text of the leftmost match, or `None` when nothing matches. */
  function NumberText(line: string, name: Label): (t: Option<string>)
    ensures t.None? <==> SearchFrom(line, name, 0).None?
    ensures t.Some? ==> t.value == RunAfter(line, name, SearchFrom(line, name, 0).value)
  {
    match SearchFrom(line, name, 0)
    case None => None
    case Some(p) =>
      var parts := Split(Group(line, name, p), ' ');
      GroupLastPart(line, name, p);
      Some(parts[|parts| - 1])
  }

  /** The text `re.search` matched at `p`: the name and the run after it. */
  function Group(line: string, name: string, p: nat): string
    requires MatchesAt(line, name, p)
  {
    line[p..p + |name| + RunLength(line, p + |name|)]
  }

  /** The last `' '`-separated part of the matched text is the run after the name. */
  lemma GroupLastPart(line: string, name: Label, p: nat)
    requires MatchesAt(line, name, p)
    ensures Split(Group(line, name, p), ' ')[|Split(Group(line, name, p), ' ')| - 1] == RunAfter(line, name, p)
  {
    var group := Group(line, name, p);
    var k := |name|;
    assert group[..k] == name;
    assert group[k..] == RunAfter(line, name, p);
    forall j | k <= j < |group| ensures IsNumChar(group[j]) {
      assert group[j] == line[p + j];
    }
    LastPartIsNumber(group, name, k);
  }

  /** The matched text is the name, whose one space is its last character, then a run
      without spaces; so its last `' '`-separated part is that run. */
  lemma LastPartIsNumber(group: string, name: string, k: nat)
    requires |name| > 0 && name[|name| - 1] == ' ' && k == |name| <= |group|
    requires group[..k] == name
    requires forall j :: k <= j < |group| ==> IsNumChar(group[j])
    ensures Split(group, ' ')[|Split(group, ' ')| - 1] == group[k..]
  {
    assert group[k - 1] == name[k - 1];
    LastSpace(group, k);
    SplitLast(group, ' ');
  }

  /** A space followed only by digits and dots is the last space. */
  lemma LastSpace(s: string, k: nat)
    requires 0 < k <= |s| && s[k - 1] == ' '
    requires forall j :: k <= j < |s| ==> IsNumChar(s[j])
    ensures RFind(s, ' ') == k - 1
  {
    RFindUnique(s, ' ', k - 1);
  }

  /** The value after `name` in `line`: `None` when the pattern does not occur,
      `ValueError` when the matched text is not a decimal. */
  function Metric(line: string, name: Label): (r: Result<Option<real>, Error>)
    ensures r.Ok? && r.value.None? <==> NumberText(line, name).None?
  {
    match NumberText(line, name)
    case None => Ok(None)
    case Some(t) =>
      RunAfterShape(line, name, SearchFrom(line, name, 0).value);
      match ParseFloat(t)
      case Ok(v) => Ok(Some(v))
      case Err(e) => Err(e)
  }

  /** `get_miou_pixacc`: `pixAcc` is looked for and converted first, then `mIoU`; a missing
      value and a value equal to 0 (falsy in Python) both give `None`. */
  function GetMiouPixacc(line: string): (r: Result<Option<Record>, Error>)
  {
    var pix := Metric(line, PixAccLabel);
    if pix.Err? then Err(pix.error)
    else
      var miou := Metric(line, MiouLabel);
      if miou.Err? then Err(miou.error)
      else if miou.value.None? || pix.value.None? || miou.value.value == 0.0 || pix.value.value == 0.0 then Ok(None)
      else Ok(Some(Record(miou.value.value, pix.value.value)))
  }

  /** A record comes back exactly when both names are followed by a nonzero decimal, with
      the first match of each used; a parse error comes back exactly when a matched number
      is not a decimal. */
  lemma GetMiouPixaccSpec(line: string)
    ensures var r, pix, miou := GetMiouPixacc(line), NumberText(line, PixAccLabel), NumberText(line, MiouLabel);
      r.Ok? && r.value.Some? <==>
        && pix.Some? && ParseFloat(pix.value).Ok? && ParseFloat(pix.value).value != 0.0
        && miou.Some? && ParseFloat(miou.value).Ok? && ParseFloat(miou.value).value != 0.0
    ensures var r, pix, miou := GetMiouPixacc(line), NumberText(line, PixAccLabel), NumberText(line, MiouLabel);
      r.Ok? && r.value.Some? ==>
        && pix.Some? && ParseFloat(pix.value).Ok? && r.value.value.pixAcc == ParseFloat(pix.value).value > 0.0
        && miou.Some? && ParseFloat(miou.value).Ok? && r.value.value.miou == ParseFloat(miou.value).value > 0.0
    ensures var r, pix, miou := GetMiouPixacc(line), NumberText(line, PixAccLabel), NumberText(line, MiouLabel);
      r.Err? <==> (pix.Some? && !IsDecimal(pix.value)) || (miou.Some? && !IsDecimal(miou.value))
  {
  }

  /** A match preceded by no occurrence of the name's first character is the one `re.search`
      reports. */
  lemma SearchFinds(line: string, name: string, p: nat)
    requires |name| > 0 && MatchesAt(line, name, p) && name[0] !in line[..p]
    ensures SearchFrom(line, name, 0) == Some(p)
  {
    forall q | 0 <= q < p ensures !MatchesAt(line, name, q) {
      assert line[q] in line[..p];
    }
  }

  /** A line without the name's first character has no match at all. */
  lemma SearchMisses(line: string, name: string)
    requires |name| > 0 && name[0] !in line
    ensures SearchFrom(line, name, 0).None?
  {
    forall q | 0 <= q < |line| ensures !MatchesAt(line, name, q) {
      assert line[q] in line;
    }
  }

  /** In `prefix + name + num + rest`, with no occurrence of the name's first character in
      the prefix and `rest` not continuing the number, the number text read is `num`. */
  lemma NumberAfter(prefix: string, name: Label, num: string, rest: string)
    requires name[0] !in prefix
    requires |num| > 0 && AllNumChars(num) && (rest == [] || !IsNumChar(rest[0]))
    ensures NumberText(prefix + name + num + rest, name) == Some(num)
  {
    var line := prefix + name + num + rest;
    var p, q := |prefix|, |prefix| + |name|;
    Pieces(prefix, name, num, rest);
    SearchFinds(line, name, p);
    RunLengthIs(line, q, |num|);
  }

  /** Where each piece of `prefix + name + num + rest` sits. */
  lemma Pieces(prefix: string, name: string, num: string, rest: string)
    requires |num| > 0
    ensures var line, p, q := prefix + name + num + rest, |prefix|, |prefix| + |name|;
      && |line| == q + |num| + |rest|
      && line[..p] == prefix && line[p..q] == name && line[q..q + |num|] == num
      && line[q] == num[0]
      && (rest != [] ==> line[q + |num|] == rest[0])
  {
  }

  /** `get_file_content` once the file is read: the content split on `'\n'`. At least one
      line, none holding a newline, and joining them gives the content back. */
  function GetFileContent(content: string): (lines: seq<string>)
    ensures |lines| >= 1 && Join(lines, '\n') == content
    ensures PartsWithout(lines, '\n')
  {
    JoinSplit(content, '\n');
    SplitNoSep(content, '\n');
    Split(content, '\n')
  }

  /** What one line adds to the two sums, given what the line parser made of it: nothing
      for a blank line, the record of any other line; a line without a record ends the run
      with status 1, and a parse error ends it with that error. */
  function LineStep(line: string, acc: Result<Option<Record>, Error>): Result<(real, real), Error>
  {
    if line == "" then Ok((0.0, 0.0))
    else
      match acc
      case Err(e) => Err(e)
      case Ok(None) => Err(Exit(1))
      case Ok(Some(rec)) => Ok((rec.miou, rec.pixAcc))
  }

  /** The outcome of each line, in file order. */
  function Steps(lines: seq<string>, parse: string -> Result<Option<Record>, Error>): (steps: seq<Result<(real, real), Error>>)
    ensures |steps| == |lines|
    ensures forall i :: 0 <= i < |lines| ==> steps[i] == LineStep(lines[i], parse(lines[i]))
  {
    seq(|lines|, i requires 0 <= i < |lines| => LineStep(lines[i], parse(lines[i])))
  }

  /** The loop as a fold over line outcomes: the two running sums, or the first error. */
  function Sums(steps: seq<Result<(real, real), Error>>): (r: Result<(real, real), Error>)
    decreases |steps|
  {
    if steps == [] then Ok((0.0, 0.0))
    else
      var prev := Sums(steps[..|steps| - 1]);
      if prev.Err? then prev
      else
        match steps[|steps| - 1]
        case Err(e) => Err(e)
        case Ok(v) => Ok((prev.value.0 + v.0, prev.value.1 + v.1))
  }

  /** The two sums after the loop has seen `lines`, or the error that stopped it. */
  function Totals(lines: seq<string>, parse: string -> Result<Option<Record>, Error>): Result<(real, real), Error>
  {
    Sums(Steps(lines, parse))
  }

  /** The result of `calculate_average_accuracy`: both sums divided by the number of lines,
      blank ones included. */
  function Average(lines: seq<string>, parse: string -> Result<Option<Record>, Error>): (r: Result<(real, real), Error>)
    requires |lines| >= 1
    ensures r.Ok? <==> Totals(lines, parse).Ok?
    ensures r.Err? ==> r == Totals(lines, parse)
    ensures r.Ok? ==> (r.value.0 * |lines| as real == Totals(lines, parse).value.0
                    && r.value.1 * |lines| as real == Totals(lines, parse).value.1)
  {
    match Totals(lines, parse)
    case Err(e) => Err(e)
    case Ok(t) =>
      var n := |lines| as real;
      DivMul(t.0, n);
      DivMul(t.1, n);
      Ok((t.0 / n, t.1 / n))
  }

  lemma DivMul(x: real, n: real)
    requires n > 0.0
    ensures (x / n) * n == x
  {
  }

  /** `calculate_average_accuracy` once the file is read. */
  method CalculateAverageAccuracy(content: string) returns (r: Result<(real, real), Error>)
    ensures r == Average(GetFileContent(content), GetMiouPixacc)
  {
    var lines := GetFileContent(content);
    var sums := SumLines(lines, GetMiouPixacc);
    if sums.Err? {
      return sums;
    }
    var avgMiou, avgPixAcc := sums.value.0, sums.value.1;
    return Ok((avgMiou / |lines| as real, avgPixAcc / |lines| as real));
  }

  /** `main`: exactly one argument after the program name, the path of the log to read.
      Reading the file is the oracle `readFile`; `None` stands for a failed `open`. */
  method CommandLine(args: seq<string>, readFile: string -> Option<string>) returns (r: Result<(real, real), Error>)
    ensures |args| != 2 ==> r == Err(Exit(1))
    ensures |args| == 2 && readFile(args[1]).None? ==> r == Err(IOError(args[1]))
    ensures |args| == 2 && readFile(args[1]).Some? ==>
      r == Average(GetFileContent(readFile(args[1]).value), GetMiouPixacc)
  {
    if |args| != 2 {
      return Err(Exit(1));
    }
    var path := args[1];
    var content := readFile(path);
    if content.None? {
      return Err(IOError(path));
    }
    r := CalculateAverageAccuracy(content.value);
  }

  /** The loop of `calculate_average_accuracy`, which runs `parse` on every non-blank line
      and stops at the first line without a record. */
  method SumLines(lines: seq<string>, parse: string -> Result<Option<Record>, Error>) returns (r: Result<(real, real), Error>)
    ensures r == Sums(Steps(lines, parse))
  {
    ghost var steps := Steps(lines, parse);
    var avgMiou, avgPixAcc := 0.0, 0.0;
    for i := 0 to |lines|
      invariant Sums(steps[..i]) == Ok((avgMiou, avgPixAcc))
    {
      var line := lines[i];
      if line == "" {
        SumsStep(steps, i, (avgMiou, avgPixAcc), (0.0, 0.0));
      } else {
        var acc := parse(line);
        if acc.Err? || acc.value.None? {
          r := if acc.Err? then Err(acc.error) else Err(Exit(1));
          SumsStop(steps, i, (avgMiou, avgPixAcc));
          return;
        }
        SumsStep(steps, i, (avgMiou, avgPixAcc), (acc.value.value.miou, acc.value.value.pixAcc));
        avgMiou := avgMiou + acc.value.value.miou;
        avgPixAcc := avgPixAcc + acc.value.value.pixAcc;
      }
    }
    assert steps[..|lines|] == steps;
    return Ok((avgMiou, avgPixAcc));
  }

  /** A successful outcome adds to the sums so far. */
  lemma SumsStep(steps: seq<Result<(real, real), Error>>, i: nat, sums: (real, real), x: (real, real))
    requires i < |steps| && Sums(steps[..i]) == Ok(sums) && steps[i] == Ok(x)
    ensures Sums(steps[..i + 1]) == Ok((sums.0 + x.0, sums.1 + x.1))
  {
    assert steps[..i + 1] == steps[..i] + [steps[i]];
    SumsSnoc(steps[..i], steps[i]);
  }

  /** A failing outcome after a successful prefix is the result of the whole fold. */
  lemma SumsStop(steps: seq<Result<(real, real), Error>>, i: nat, sums: (real, real))
    requires i < |steps| && Sums(steps[..i]) == Ok(sums) && steps[i].Err?
    ensures Sums(steps) == steps[i]
  {
    assert steps[..i + 1] == steps[..i] + [steps[i]];
    SumsSnoc(steps[..i], steps[i]);
    ErrorSticks(steps[..i + 1], steps[i + 1..]);
    assert steps[..i + 1] + steps[i + 1..] == steps;
  }

  /** One more outcome: an earlier error stays, a new error replaces the sums, a success adds. */
  lemma SumsSnoc(steps: seq<Result<(real, real), Error>>, x: Result<(real, real), Error>)
    ensures Sums(steps + [x]) ==
      if Sums(steps).Err? then Sums(steps)
      else if x.Err? then x
      else Ok((Sums(steps).value.0 + x.value.0, Sums(steps).value.1 + x.value.1))
  {
    assert (steps + [x])[..|steps|] == steps;
  }

  /** The first failing line decides the outcome: nothing after it is looked at. */
  lemma {:induction false} ErrorSticks(a: seq<Result<(real, real), Error>>, b: seq<Result<(real, real), Error>>)
    requires Sums(a).Err?
    ensures Sums(a + b) == Sums(a)
    decreases |b|
  {
    if b != [] {
      var ab := a + b;
      assert ab[..|ab| - 1] == a + b[..|b| - 1];
      ErrorSticks(a, b[..|b| - 1]);
    } else {
      assert a + b == a;
    }
  }

  /** The fold succeeds exactly when every outcome is a success. */
  lemma {:induction false} SumsOkIff(steps: seq<Result<(real, real), Error>>)
    ensures Sums(steps).Ok? <==> forall i :: 0 <= i < |steps| ==> steps[i].Ok?
    decreases |steps|
  {
    if steps != [] {
      var init := steps[..|steps| - 1];
      SumsOkIff(init);
      assert forall i :: 0 <= i < |init| ==> init[i] == steps[i];
    }
  }

  /** The run succeeds exactly when every line is blank or holds a record. */
  lemma TotalsOkIff(lines: seq<string>, parse: string -> Result<Option<Record>, Error>)
    ensures Totals(lines, parse).Ok? <==>
      forall i :: 0 <= i < |lines| ==> lines[i] == "" || (parse(lines[i]).Ok? && parse(lines[i]).value.Some?)
  {
    SumsOkIff(Steps(lines, parse));
  }

  /** When line `k` is the first that is neither blank nor a record, its outcome (its parse
      error, or exit status 1) is the outcome of the whole run. */
  lemma FirstFailureWins(lines: seq<string>, parse: string -> Result<Option<Record>, Error>, k: nat)
    requires k < |lines| && LineStep(lines[k], parse(lines[k])).Err?
    requires forall i :: 0 <= i < k ==> LineStep(lines[i], parse(lines[i])).Ok?
    ensures Totals(lines, parse) == LineStep(lines[k], parse(lines[k]))
  {
    var steps := Steps(lines, parse);
    SumsOkIff(steps[..k]);
    SumsStop(steps, k, Sums(steps[..k]).value);
  }

  /** The fold splits at any point: the sums over two pieces add up, and the first piece's
      error, then the second's, is the one reported. */
  lemma {:induction false} SumsAppend(a: seq<Result<(real, real), Error>>, b: seq<Result<(real, real), Error>>)
    ensures Sums(a + b) ==
      if Sums(a).Err? then Sums(a)
      else if Sums(b).Err? then Sums(b)
      else Ok((Sums(a).value.0 + Sums(b).value.0, Sums(a).value.1 + Sums(b).value.1))
    decreases |b|
  {
    if b == [] {
      assert a + b == a;
    } else {
      var ab := a + b;
      var b' := b[..|b| - 1];
      assert ab[..|ab| - 1] == a + b';
      assert ab[|ab| - 1] == b[|b| - 1];
      SumsAppend(a, b');
    }
  }

  /** The same for lines: the file's result is composed from the results of its pieces. */
  lemma TotalsAppend(a: seq<string>, b: seq<string>, parse: string -> Result<Option<Record>, Error>)
    ensures Totals(a + b, parse) ==
      if Totals(a, parse).Err? then Totals(a, parse)
      else if Totals(b, parse).Err? then Totals(b, parse)
      else Ok((Totals(a, parse).value.0 + Totals(b, parse).value.0, Totals(a, parse).value.1 + Totals(b, parse).value.1))
  {
    StepsAppend(a, b, parse);
    SumsAppend(Steps(a, parse), Steps(b, parse));
  }

  lemma StepsAppend(a: seq<string>, b: seq<string>, parse: string -> Result<Option<Record>, Error>)
    ensures Steps(a + b, parse) == Steps(a, parse) + Steps(b, parse)
  {
    var ab := a + b;
    assert forall i :: 0 <= i < |a| ==> ab[i] == a[i];
    assert forall i :: 0 <= i < |b| ==> ab[|a| + i] == b[i];
  }

  /** A blank line changes neither sum; it only adds to the denominator. */
  lemma BlankLineAddsNothing(lines: seq<string>, parse: string -> Result<Option<Record>, Error>)
    ensures Totals(lines + [""], parse) == Totals(lines, parse)
  {
    TotalsAppend(lines, [""], parse);
    BlankFile(parse);
  }

  lemma BlankFile(parse: string -> Result<Option<Record>, Error>)
    ensures Totals([""], parse) == Ok((0.0, 0.0))
  {
    var steps := Steps([""], parse);
    assert steps[0] == LineStep("", parse("")) == Ok((0.0, 0.0));
    assert steps[..|steps| - 1] == [];
    assert Sums(steps[..|steps| - 1]) == Ok((0.0, 0.0));
  }

  /** A file ending in a newline has one more, blank, line: same sums, one more line counted. */
  lemma TrailingNewline(content: string, parse: string -> Result<Option<Record>, Error>)
    ensures GetFileContent(content + "\n") == GetFileContent(content) + [""]
    ensures Totals(GetFileContent(content + "\n"), parse) == Totals(GetFileContent(content), parse)
  {
    SplitAppendSep(content, '\n');
    BlankLineAddsNothing(GetFileContent(content), parse);
  }

  /** An empty file is one blank line: the averages are both 0. */
  lemma EmptyFile(parse: string -> Result<Option<Record>, Error>)
    ensures Average(GetFileContent(""), parse) == Ok((0.0, 0.0))
  {
    assert GetFileContent("") == [""];
    BlankFile(parse);
  }
}
