/** `train.py`: builds the command line of the model zoo's training script and runs it from
    the zoo's `scripts` directory. The shell is an object whose working directory and list of
    issued commands change; `os.system` and `os.chdir` are its methods. */
module Train {
  import opened Wrappers
  import opened Errors
  import opened Text

  const ModelFlag := " --model "
  const BackboneFlag := " --backbone "
  const DatasetFlag := " --dataset citys"
  const LrFlag := " --lr "
  const EpochsFlag := " --epochs "

  /** The defaults of `train`'s keyword parameters; `str(0.0001)` is `"0.0001"`. */
  const DefaultEpochs := 100
  const DefaultLossRate := "0.0001"
  const DefaultGpus := 1

  /** `'./awesome-semantic-segmentation-pytorch/scripts'` and `'../../'`, spelled
      component by component. */
  const Zoo := "awesome-semantic-segmentation-pytorch"
  const Scripts := "scripts"
  const ScriptsDir := "." + "/" + Zoo + "/" + Scripts
  const BackDir := ".." + "/" + ".." + "/" + ""

  predicate NoSpace(s: string) { forall j :: 0 <= j < |s| ==> s[j] != ' ' }

  /** `parameters`: the flags passed to the training script. `lossRate` is `str(loss_rate)`. */
  function Parameters(model: string, backbone: string, lossRate: string, epochs: int): (p: string)
    ensures |p| > |ModelFlag| && p[..|ModelFlag|] == ModelFlag
  {
    ModelFlag + model + BackboneFlag + backbone + DatasetFlag + LrFlag + lossRate + EpochsFlag + IntToString(epochs)
  }

  /** The words of the launcher's command line. */
  const Python := "python"
  const ModuleOption := "-m"
  const Launch := "torch.distributed.launch"
  const Nproc := "--nproc_per_node="
  const Script := "train.py"

  /** `'python -m torch.distributed.launch --nproc_per_node='`, `' train.py'` and
      `'python train.py'`, spelled word by word. */
  const LaunchPrefix := Python + " " + ModuleOption + " " + Launch + " " + Nproc
  const LaunchScript := " " + Script
  const PlainCommand := Python + " " + Script

  /** The command `train` hands to `os.system`: the distributed launcher only for more than
      one GPU, the plain interpreter otherwise (zero and negative counts included). */
  function Command(ngpus: int, parameters: string): (c: string)
    ensures ngpus > 1 ==> EndsWith(c, parameters) && StartsWith(c, LaunchPrefix)
    ensures ngpus <= 1 ==> c == PlainCommand + parameters
  {
    if ngpus > 1 then
      LaunchPrefix + IntToString(ngpus) + LaunchScript + parameters
    else
      PlainCommand + parameters
  }

  /** The part of the command before the parameters. */
  function Head(ngpus: int): string
  {
    if ngpus > 1 then LaunchPrefix + IntToString(ngpus) + LaunchScript else PlainCommand
  }

  /** The words the shell hands to Python before the script's own arguments. */
  function Launcher(ngpus: int): seq<string>
  {
    if ngpus > 1 then [Python, ModuleOption, Launch, Nproc + IntToString(ngpus), Script]
    else [Python, Script]
  }

  /** The script's own arguments, one word each. */
  function Arguments(model: string, backbone: string, lossRate: string, epochs: int): seq<string>
  {
    ["--model", model, "--backbone", backbone, "--dataset", "citys", "--lr", lossRate, "--epochs", IntToString(epochs)]
  }

  /** `str(i)` never holds a space. */
  lemma IntTextNoSpace(i: int)
    ensures NoSpace(IntToString(i))
  {
    var s := IntToString(i);
    if i < 0 {
      assert forall j :: 1 <= j < |s| ==> s[j] == NatToString(-i)[j - 1];
    }
  }

  /** One more flag and its value, both space-free, add two words. */
  lemma {:induction false} AddPair(head: string, body: string, piece: string, flag: string, w: string)
    requires piece == " " + flag + " " + w && NoSpace(flag) && NoSpace(w)
    ensures Split(head + (body + piece), ' ') == Split(head + body, ' ') + [flag, w]
  {
    assert head + (body + piece) == (head + body) + [' '] + flag + [' '] + w;
    SplitAppendPart(head + body, ' ', flag);
    SplitAppendPart(head + body + [' '] + flag, ' ', w);
  }

  /** The fixed words of the command hold no space. */
  lemma FixedWords()
    ensures NoSpace(Python) && NoSpace(ModuleOption) && NoSpace(Launch) && NoSpace(Nproc) && NoSpace(Script)
  {
  }

  lemma FlagPieces()
    ensures ModelFlag == " " + "--model" + " " && BackboneFlag == " " + "--backbone" + " "
    ensures DatasetFlag == " " + "--dataset" + " " + "citys"
    ensures LrFlag == " " + "--lr" + " " && EpochsFlag == " " + "--epochs" + " "
    ensures NoSpace("--model") && NoSpace("--backbone") && NoSpace("--dataset") && NoSpace("citys")
    ensures NoSpace("--lr") && NoSpace("--epochs")
  {
  }

  /** Space-free words glued with single spaces split back into those words. */
  lemma Words(a: string, b: string, c: string, d: string, e: string)
    requires NoSpace(a) && NoSpace(b) && NoSpace(c) && NoSpace(d) && NoSpace(e)
    ensures Split(a + " " + b, ' ') == [a, b]
    ensures Split(a + " " + b + " " + c + " " + d + " " + e, ' ') == [a, b, c, d, e]
  {
    assert Find(a, ' ') < 0;
    assert Split(a, ' ') == [a];
    SplitAppendPart(a, ' ', b);
    SplitAppendPart(a + " " + b, ' ', c);
    SplitAppendPart(a + " " + b + " " + c, ' ', d);
    SplitAppendPart(a + " " + b + " " + c + " " + d, ' ', e);
  }

  /** The words of the launcher part of the command. */
  lemma LauncherWords(ngpus: int)
    ensures Split(Head(ngpus), ' ') == Launcher(ngpus)
  {
    FixedWords();
    if ngpus > 1 {
      IntTextNoSpace(ngpus);
      LaunchLine(Python, ModuleOption, Launch, Nproc, IntToString(ngpus), Script);
    } else {
      Words(Python, Script, "", "", "");
    }
  }

  /** A launcher line whose fourth word is glued to the GPU count splits into five words. */
  lemma LaunchLine(a: string, b: string, c: string, d: string, n: string, e: string)
    requires NoSpace(a) && NoSpace(b) && NoSpace(c) && NoSpace(d) && NoSpace(n) && NoSpace(e)
    ensures Split(a + " " + b + " " + c + " " + d + n + (" " + e), ' ') == [a, b, c, d + n, e]
  {
    var q := a + " " + b + " " + c + " ";
    AppendAssoc(q, d, n);
    AppendAssoc(q + d + n, " ", e);
    assert NoSpace(d + n);
    Words(a, b, c, d + n, e);
  }

  /** Two flag/value pairs, each glued as `" " + flag + " " + value`, add four words. */
  lemma {:induction false} TwoPairs(head: string, f1: string, w1: string, f2: string, w2: string)
    requires NoSpace(f1) && NoSpace(w1) && NoSpace(f2) && NoSpace(w2)
    ensures Split(head + ((" " + f1 + " ") + w1 + (" " + f2 + " ") + w2), ' ') == Split(head, ' ') + [f1, w1, f2, w2]
  {
    var p1 := (" " + f1 + " ") + w1;
    var q2 := (" " + f2 + " ") + w2;
    assert head + p1 == head + ([] + p1) && head == head + [];
    AddPair(head, [], p1, f1, w1);
    AddPair(head, p1, q2, f2, w2);
    assert (" " + f1 + " ") + w1 + (" " + f2 + " ") + w2 == p1 + q2;
  }

  /** Five flag/value pairs, the third glued in one piece, add ten words. */
  lemma {:induction false} PairWords(head: string, f1: string, w1: string, f2: string, w2: string, pair3: string,
                  f3: string, w3: string, f4: string, w4: string, f5: string, w5: string)
    requires NoSpace(f1) && NoSpace(w1) && NoSpace(f2) && NoSpace(w2) && NoSpace(f3) && NoSpace(w3)
    requires NoSpace(f4) && NoSpace(w4) && NoSpace(f5) && NoSpace(w5)
    requires pair3 == " " + f3 + " " + w3
    ensures var p := (" " + f1 + " ") + w1 + (" " + f2 + " ") + w2 + pair3 + (" " + f4 + " ") + w4 + (" " + f5 + " ") + w5;
            Split(head + p, ' ') == Split(head, ' ') + [f1, w1, f2, w2] + [f3, w3] + [f4, w4, f5, w5]
  {
    var a := (" " + f1 + " ") + w1 + (" " + f2 + " ") + w2;
    var b := (" " + f4 + " ") + w4 + (" " + f5 + " ") + w5;
    TwoPairs(head, f1, w1, f2, w2);
    AddPair(head, a, pair3, f3, w3);
    TwoPairs(head + (a + pair3), f4, w4, f5, w5);
    var x, g4, g5 := a + pair3, " " + f4 + " ", " " + f5 + " ";
    AppendAssoc(x, g4, w4);
    AppendAssoc(x, g4 + w4, g5);
    AppendAssoc(x, g4 + w4 + g5, w5);
    AppendAssoc(head, x, b);
  }

  /** The parameters add the script's arguments, two words per flag, after any head. */
  lemma ParameterWords(head: string, model: string, backbone: string, lossRate: string, epochs: int)
    requires NoSpace(model) && NoSpace(backbone) && NoSpace(lossRate)
    ensures Split(head + Parameters(model, backbone, lossRate, epochs), ' ')
            == Split(head, ' ') + Arguments(model, backbone, lossRate, epochs)
  {
    FlagPieces();
    IntTextNoSpace(epochs);
    var e := IntToString(epochs);
    PairWords(head, "--model", model, "--backbone", backbone, DatasetFlag, "--dataset", "citys",
              "--lr", lossRate, "--epochs", e);
    Regroup(Split(head, ' '), "--model", model, "--backbone", backbone, "--dataset", "citys", "--lr", lossRate, "--epochs", e);
  }

  /** Word lists of four, two and four words make one list of ten. */
  lemma Regroup(h: seq<string>, x1: string, x2: string, x3: string, x4: string, x5: string,
                x6: string, x7: string, x8: string, x9: string, x10: string)
    ensures h + [x1, x2, x3, x4] + [x5, x6] + [x7, x8, x9, x10] == h + [x1, x2, x3, x4, x5, x6, x7, x8, x9, x10]
  {
    assert [x1, x2, x3, x4] + [x5, x6] + [x7, x8, x9, x10] == [x1, x2, x3, x4, x5, x6, x7, x8, x9, x10];
    AppendAssoc(h, [x1, x2, x3, x4], [x5, x6]);
    AppendAssoc(h, [x1, x2, x3, x4] + [x5, x6], [x7, x8, x9, x10]);
  }

  /** The command line, read the way a shell splits words, is the launcher followed by the
      script's arguments: with space-free names the model, backbone, rate and epochs each
      reach the script as one argument, and the dataset is always `citys`. */
  lemma CommandWords(ngpus: int, model: string, backbone: string, lossRate: string, epochs: int)
    requires NoSpace(model) && NoSpace(backbone) && NoSpace(lossRate)
    ensures Split(Command(ngpus, Parameters(model, backbone, lossRate, epochs)), ' ')
            == Launcher(ngpus) + Arguments(model, backbone, lossRate, epochs)
  {
    var p := Parameters(model, backbone, lossRate, epochs);
    assert Command(ngpus, p) == Head(ngpus) + p;
    LauncherWords(ngpus);
    ParameterWords(Head(ngpus), model, backbone, lossRate, epochs);
  }

  /** A word list splits into its launcher and argument parts in one way only. */
  lemma SplitParts(l: seq<string>, a: seq<string>, l': seq<string>, a': seq<string>)
    requires l + a == l' + a' && |a| == |a'|
    ensures l == l' && a == a'
  {
    assert l == (l + a)[..|l|] && l' == (l' + a')[..|l'|];
    assert a == (l + a)[|l|..] && a' == (l' + a')[|l'|..];
  }

  lemma ArgumentsInjective(model: string, backbone: string, lossRate: string, epochs: int,
                           model': string, backbone': string, lossRate': string, epochs': int)
    requires Arguments(model, backbone, lossRate, epochs) == Arguments(model', backbone', lossRate', epochs')
    ensures model == model' && backbone == backbone' && lossRate == lossRate' && epochs == epochs'
  {
    var a, a' := Arguments(model, backbone, lossRate, epochs), Arguments(model', backbone', lossRate', epochs');
    assert a[1] == model && a'[1] == model';
    assert a[3] == backbone && a'[3] == backbone';
    assert a[7] == lossRate && a'[7] == lossRate';
    assert a[9] == IntToString(epochs) && a'[9] == IntToString(epochs');
    IntToStringInjective(epochs, epochs');
  }

  lemma LauncherInjective(ngpus: int, ngpus': int)
    requires Launcher(ngpus) == Launcher(ngpus')
    ensures (ngpus > 1 <==> ngpus' > 1) && (ngpus > 1 ==> ngpus == ngpus')
  {
    var l, l' := Launcher(ngpus), Launcher(ngpus');
    assert |l| == (if ngpus > 1 then 5 else 2) && |l'| == (if ngpus' > 1 then 5 else 2);
    if ngpus > 1 {
      var n, n' := IntToString(ngpus), IntToString(ngpus');
      assert l[3] == Nproc + n && l'[3] == Nproc + n';
      assert n == (Nproc + n)[|Nproc|..] && n' == (Nproc + n')[|Nproc|..];
      IntToStringInjective(ngpus, ngpus');
    }
  }

  /** The command line determines the training run: equal commands (with space-free names)
      mean the same model, backbone, rate and epochs, and the same GPU count whenever the
      launcher is used. */
  lemma CommandDetermines(ngpus: int, model: string, backbone: string, lossRate: string, epochs: int,
                          ngpus': int, model': string, backbone': string, lossRate': string, epochs': int)
    requires NoSpace(model) && NoSpace(backbone) && NoSpace(lossRate)
    requires NoSpace(model') && NoSpace(backbone') && NoSpace(lossRate')
    requires Command(ngpus, Parameters(model, backbone, lossRate, epochs))
          == Command(ngpus', Parameters(model', backbone', lossRate', epochs'))
    ensures model == model' && backbone == backbone' && lossRate == lossRate' && epochs == epochs'
    ensures (ngpus > 1 <==> ngpus' > 1) && (ngpus > 1 ==> ngpus == ngpus')
  {
    CommandWords(ngpus, model, backbone, lossRate, epochs);
    CommandWords(ngpus', model', backbone', lossRate', epochs');
    SplitParts(Launcher(ngpus), Arguments(model, backbone, lossRate, epochs),
               Launcher(ngpus'), Arguments(model', backbone', lossRate', epochs'));
    ArgumentsInjective(model, backbone, lossRate, epochs, model', backbone', lossRate', epochs');
    LauncherInjective(ngpus, ngpus');
  }

  lemma HundredText()
    ensures IntToString(100) == "100"
  {
    assert NatToString(10) == "10";
  }

  /** `train(model, backbone)` with every default: the plain interpreter, rate `0.0001`,
      100 epochs. */
  lemma DefaultCommand(model: string, backbone: string)
    ensures Command(DefaultGpus, Parameters(model, backbone, DefaultLossRate, DefaultEpochs))
         == PlainCommand + (ModelFlag + model + BackboneFlag + backbone + DatasetFlag + LrFlag + "0.0001" + EpochsFlag + "100")
  {
    HundredText();
  }

  /** `os.chdir`, one component at a time: `.` and empty components stay, `..` goes up (and
      stays at the root), any other name goes down. */
  function Walk(cwd: seq<string>, parts: seq<string>): seq<string>
    decreases |parts|
  {
    if parts == [] then cwd
    else
      var next := if parts[0] == "" || parts[0] == "." then cwd
                  else if parts[0] == ".." then (if cwd == [] then [] else cwd[..|cwd| - 1])
                  else cwd + [parts[0]];
      Walk(next, parts[1..])
  }

  /** The directory `os.chdir(path)` moves to from `cwd`: a path that starts with `/` is
      walked from the root, any other from `cwd`. */
  function Resolve(cwd: seq<string>, path: string): seq<string>
  {
    Walk(if |path| > 0 && path[0] == '/' then [] else cwd, Split(path, '/'))
  }

  /** Three components without a separator, glued with it, split back into them. */
  lemma {:induction false} ThreeParts(a: string, b: string, c: string, sep: char)
    requires forall j :: 0 <= j < |a| ==> a[j] != sep
    requires forall j :: 0 <= j < |b| ==> b[j] != sep
    requires forall j :: 0 <= j < |c| ==> c[j] != sep
    ensures Split(a + [sep] + b + [sep] + c, sep) == [a, b, c]
  {
    assert Find(a, sep) < 0;
    SplitAppendPart(a, sep, b);
    SplitAppendPart(a + [sep] + b, sep, c);
  }

  lemma ScriptsParts()
    ensures Split(ScriptsDir, '/') == [".", Zoo, Scripts]
    ensures Split(BackDir, '/') == ["..", "..", ""]
  {
    assert forall j :: 0 <= j < |Zoo| ==> Zoo[j] != '/';
    ThreeParts(".", Zoo, Scripts, '/');
    ThreeParts("..", "..", "", '/');
  }

  /** The two `chdir`s of `train` cancel: into the zoo's `scripts` and back up twice ends where
      it started, from any working directory. */
  lemma RoundTrip(cwd: seq<string>)
    ensures Resolve(cwd, ScriptsDir) == cwd + [Zoo, Scripts]
    ensures Resolve(cwd + [Zoo, Scripts], BackDir) == cwd
  {
    ScriptsParts();
    WalkDown(cwd);
    WalkUp(cwd);
  }

  lemma WalkDown(cwd: seq<string>)
    ensures Walk(cwd, [".", Zoo, Scripts]) == cwd + [Zoo, Scripts]
  {
    var down := cwd + [Zoo, Scripts];
    assert [".", Zoo, Scripts][1..] == [Zoo, Scripts];
    assert [Zoo, Scripts][1..] == [Scripts];
    assert cwd + [Zoo] + [Scripts] == down;
    assert Zoo != "" && Zoo != "." && Zoo != ".." && Scripts != "" && Scripts != "." && Scripts != "..";
    assert Walk(cwd, [".", Zoo, Scripts]) == Walk(cwd, [Zoo, Scripts]);
    assert Walk(cwd, [Zoo, Scripts]) == Walk(cwd + [Zoo], [Scripts]);
    assert Walk(cwd + [Zoo], [Scripts]) == Walk(down, []);
  }

  lemma WalkUp(cwd: seq<string>)
    ensures Walk(cwd + [Zoo, Scripts], ["..", "..", ""]) == cwd
  {
    var down := cwd + [Zoo, Scripts];
    assert down[..|down| - 1] == cwd + [Zoo];
    assert (cwd + [Zoo])[..|cwd|] == cwd;
    assert ["..", "..", ""][1..] == ["..", ""];
    assert ["..", ""][1..] == [""];
  }

  /** The process as `train` sees it: a working directory (absolute, as path components),
      the commands handed to `os.system` so far, and which directories exist. */
  class Shell {
    var cwd: seq<string>
    var issued: seq<string>
    const isDir: seq<string> -> bool

    /** The working directory is an existing directory. */
    ghost predicate Valid()
      reads this
    {
      isDir(cwd)
    }

    constructor (start: seq<string>, isDir: seq<string> -> bool)
      requires isDir(start)
      ensures Valid()
      ensures cwd == start && issued == [] && this.isDir == isDir
    {
      this.cwd := start;
      this.issued := [];
      this.isDir := isDir;
    }

    /** `os.chdir(path)`: moves when the target is a directory, and otherwise raises. */
    method Chdir(path: string) returns (r: Result<(), Error>)
      requires Valid()
      modifies this
      ensures Valid()
      ensures r.Ok? <==> isDir(Resolve(old(cwd), path))
      ensures r.Err? ==> r == Err(IOError(path))
      ensures cwd == (if r.Ok? then Resolve(old(cwd), path) else old(cwd))
      ensures issued == old(issued)
    {
      var target := Resolve(cwd, path);
      if !isDir(target) {
        return Err(IOError(path));
      }
      cwd := target;
      return Ok(());
    }

    /** `os.system(command)`: the command is issued; its exit status is dropped. */
    method System(command: string)
      modifies this
      ensures issued == old(issued) + [command]
      ensures cwd == old(cwd)
    {
      issued := issued + [command];
    }

    /** `train`: into the zoo's `scripts`, one training command, and back. If `scripts` is
        missing, `chdir` raises before any command is issued. */
    method Train(model: string, backbone: string, epochs: int, lossRate: string, ngpus: int)
      returns (r: Result<(), Error>)
      requires Valid()
      modifies this
      ensures Valid()
      ensures cwd == old(cwd)
      ensures r.Ok? <==> isDir(old(cwd) + [Zoo, Scripts])
      ensures r.Err? ==> r == Err(IOError(ScriptsDir)) && issued == old(issued)
      ensures r.Ok? ==> issued == old(issued) + [Command(ngpus, Parameters(model, backbone, lossRate, epochs))]
    {
      ghost var start := cwd;
      RoundTrip(start);
      r := Chdir(ScriptsDir);
      if r.Err? {
        return;
      }
      var parameters := Parameters(model, backbone, lossRate, epochs);
      System(Command(ngpus, parameters));
      var back := Chdir(BackDir);
      assert back.Ok?;
    }
  }
}
