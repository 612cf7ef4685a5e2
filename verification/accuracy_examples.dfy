/** Concrete lines run through the `get_miou_pixacc` model. Each line is spelled as the
    pieces the patterns see: a label, its number, and what separates it from the next. */
module AccuracyExamples {
  import opened Wrappers
  import opened Errors
  import opened Text
  import opened Accuracy
  import opened Floats

  /** A line that starts with a label and its number reads that number for the label. */
  lemma LeadingMetric(a: Label, x: string, rest: string)
    requires |x| > 0 && AllNumChars(x) && (rest == [] || !IsNumChar(rest[0]))
    ensures NumberText(a + x + rest, a) == Some(x)
  {
    NumberAfter([], a, x, rest);
    assert [] + a == a;
  }

  /** `a x sep b y`: both labels read their own number, provided the second label's first
      character does not occur before it. */
  lemma TwoMetrics(a: Label, x: string, sep: string, b: Label, y: string)
    requires |x| > 0 && AllNumChars(x) && |sep| > 0 && !IsNumChar(sep[0])
    requires |y| > 0 && AllNumChars(y) && b[0] !in a + x + sep
    ensures NumberText(a + x + sep + b + y, a) == Some(x)
    ensures NumberText(a + x + sep + b + y, b) == Some(y)
  {
    LeadingMetric(a, x, sep + b + y);
    AppendAssoc(a + x, sep + b, y);
    AppendAssoc(a + x, sep, b);
    NumberAfter(a + x + sep, b, y, []);
    assert a + x + sep + b + y + [] == a + x + sep + b + y;
  }

  /** Both numbers parse to nonzero values: the line gives `(mIoU, pixAcc)`. */
  lemma RecordOf(line: string, pixText: string, miouText: string, pixAcc: real, miou: real)
    requires NumberText(line, PixAccLabel) == Some(pixText) && ParseFloat(pixText) == Ok(pixAcc)
    requires NumberText(line, MiouLabel) == Some(miouText) && ParseFloat(miouText) == Ok(miou)
    requires pixAcc != 0.0 && miou != 0.0
    ensures GetMiouPixacc(line) == Ok(Some(Record(miou, pixAcc)))
  {
  }

  const Good: string := PixAccLabel + "91.5" + ", " + MiouLabel + "72.25"

  /** A well-formed line gives `(mIoU, pixAcc)`, in that order. */
  lemma GoodLine()
    ensures GetMiouPixacc(Good) == Ok(Some(Record(72.25, 91.5)))
  {
    TwoMetrics(PixAccLabel, "91.5", ", ", MiouLabel, "72.25");
    Float91_5();
    Float72_25();
    RecordOf(Good, "91.5", "72.25", 91.5, 72.25);
  }

  const Capitalised: string := "PixAcc: 91.5, " + MiouLabel + "72.25"

  /** Matching is case-sensitive: `PixAcc` is not `pixAcc`, so the line has no record. */
  lemma CapitalisedLabel()
    ensures GetMiouPixacc(Capitalised) == Ok(None)
  {
    assert PixAccLabel[0] !in Capitalised;
    SearchMisses(Capitalised, PixAccLabel);
    NumberAfter("PixAcc: 91.5, ", MiouLabel, "72.25", []);
    assert Capitalised + [] == Capitalised;
    Float72_25();
  }

  const Zero: string := PixAccLabel + "0.00" + ", " + MiouLabel + "72.25"

  /** A value of 0 is falsy in Python, so it counts as missing. */
  lemma ZeroIsMissing()
    ensures GetMiouPixacc(Zero) == Ok(None)
  {
    TwoMetrics(PixAccLabel, "0.00", ", ", MiouLabel, "72.25");
    Float0_00();
    Float72_25();
  }

  const TwoDots: string := PixAccLabel + "1.2.3" + ", " + MiouLabel + "72.25"

  /** A run of digits and dots that is not a decimal is a `ValueError`, not a missing value. */
  lemma MalformedNumber()
    ensures GetMiouPixacc(TwoDots) == Err(ValueError("1.2.3"))
  {
    LeadingMetric(PixAccLabel, "1.2.3", ", " + MiouLabel + "72.25");
    AppendAssoc(PixAccLabel + "1.2.3", ", " + MiouLabel, "72.25");
    AppendAssoc(PixAccLabel + "1.2.3", ", ", MiouLabel);
    Float1_2_3();
  }

  const Twice: string := PixAccLabel + "0.5" + " " + PixAccLabel + "0.7"

  /** Only the first occurrence of a name is read. */
  lemma FirstOccurrence()
    ensures NumberText(Twice, PixAccLabel) == Some("0.5")
  {
    LeadingMetric(PixAccLabel, "0.5", " " + PixAccLabel + "0.7");
    AppendAssoc(PixAccLabel + "0.5", " " + PixAccLabel, "0.7");
    AppendAssoc(PixAccLabel + "0.5", " ", PixAccLabel);
  }

  const First: string := MiouLabel + "50.0" + " " + PixAccLabel + "80.0"
  const Third: string := MiouLabel + "60.0" + " " + PixAccLabel + "90.0"

  lemma FirstLine()
    ensures GetMiouPixacc(First) == Ok(Some(Record(50.0, 80.0)))
  {
    TwoMetrics(MiouLabel, "50.0", " ", PixAccLabel, "80.0");
    Float50_0();
    Float80_0();
    RecordOf(First, "80.0", "50.0", 80.0, 50.0);
  }

  lemma ThirdLine()
    ensures GetMiouPixacc(Third) == Ok(Some(Record(60.0, 90.0)))
  {
    TwoMetrics(MiouLabel, "60.0", " ", PixAccLabel, "90.0");
    Float60_0();
    Float90_0();
    RecordOf(Third, "90.0", "60.0", 90.0, 60.0);
  }

  /** `float` on the numbers above. */
  lemma Float0_00()
    ensures ParseFloat("0.00") == Ok(0.0)
  {
  }

  lemma Float1_2_3()
    ensures ParseFloat("1.2.3") == Err(ValueError("1.2.3"))
  {
  }

  lemma Float50_0()
    ensures ParseFloat("50.0") == Ok(50.0)
  {
  }

  lemma Float60_0()
    ensures ParseFloat("60.0") == Ok(60.0)
  {
  }

  lemma Float72_25()
    ensures ParseFloat("72.25") == Ok(72.25)
  {
  }

  lemma Float80_0()
    ensures ParseFloat("80.0") == Ok(80.0)
  {
  }

  lemma Float90_0()
    ensures ParseFloat("90.0") == Ok(90.0)
  {
  }

  lemma Float91_5()
    ensures ParseFloat("91.5") == Ok(91.5)
  {
  }

  lemma ThreeSteps()
    ensures Steps([First, "", Third], GetMiouPixacc) == [Ok((50.0, 80.0)), Ok((0.0, 0.0)), Ok((60.0, 90.0))]
  {
    FirstLine();
    ThirdLine();
    StepsAroundBlank(First, Third, GetMiouPixacc, Record(50.0, 80.0), Record(60.0, 90.0));
  }

  lemma StepsAroundBlank(a: string, c: string, parse: string -> Result<Option<Record>, Error>, x: Record, z: Record)
    requires a != "" && c != "" && parse(a) == Ok(Some(x)) && parse(c) == Ok(Some(z))
    ensures Steps([a, "", c], parse) == [Ok((x.miou, x.pixAcc)), Ok((0.0, 0.0)), Ok((z.miou, z.pixAcc))]
  {
  }

  lemma ThreeSums()
    ensures Sums([Ok((50.0, 80.0)), Ok((0.0, 0.0)), Ok((60.0, 90.0))]) == Ok((110.0, 170.0))
  {
    SumsSnoc([], Ok((50.0, 80.0)));
    SumsSnoc([Ok((50.0, 80.0))], Ok((0.0, 0.0)));
    SumsSnoc([Ok((50.0, 80.0)), Ok((0.0, 0.0))], Ok((60.0, 90.0)));
  }

  /** Three lines, the middle one blank: the sums are divided by 3, not by 2. */
  lemma BlankLineInDenominator()
    ensures Average([First, "", Third], GetMiouPixacc) == Ok((110.0 / 3.0, 170.0 / 3.0))
  {
    ThreeSteps();
    ThreeSums();
  }
}
