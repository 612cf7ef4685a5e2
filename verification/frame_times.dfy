/** The frame names `convert_vid` writes, read back by the time key of `test_frames.py`:
    every name carries the time of its probe, whatever the sign of the rate. */
module FrameTimes {
  import opened Wrappers
  import opened Text
  import opened Floats
  import opened Paths
  import opened Segmentation
  import opened TestFrames

  /** The key of the frame written at probe `k` is that probe's time in seconds. */
  lemma ProbeNameKey(framesDir: string, k: nat, frameRate: real)
    ensures FrameKey(FramePath(framesDir, ProbeText(k, frameRate))) == Ok((k * Round2(frameRate)) as real / 100.0)
  {
    if k == 0 {
      FirstProbeNameKey(framesDir, k, frameRate);
    } else {
      LaterProbeNameKey(framesDir, k, frameRate);
    }
  }

  lemma FirstProbeNameKey(framesDir: string, k: nat, frameRate: real)
    requires k == 0
    ensures FrameKey(FramePath(framesDir, ProbeText(k, frameRate))) == Ok((k * Round2(frameRate)) as real / 100.0)
  {
    assert FramePath(framesDir, ProbeText(k, frameRate)) == FramePath(framesDir, "0");
    FirstProbeKey(framesDir);
    assert (k * Round2(frameRate)) as real / 100.0 == 0.0;
  }

  lemma LaterProbeNameKey(framesDir: string, k: nat, frameRate: real)
    requires k > 0
    ensures FrameKey(FramePath(framesDir, ProbeText(k, frameRate))) == Ok((k * Round2(frameRate)) as real / 100.0)
  {
    TimeNameKey(framesDir, k * Round2(frameRate), frameRate);
  }

  /** The first probe writes `image0.jpg`, keyed 0. */
  lemma FirstProbeKey(framesDir: string)
    ensures FrameKey(FramePath(framesDir, "0")) == Ok(0.0)
  {
    ParseZeroText();
    SignedFrameKey(framesDir, "0", 0.0);
  }

  /** A later probe at `h` hundredths writes `image<str(sec)>.jpg`, keyed `h / 100`. */
  lemma TimeNameKey(framesDir: string, h: int, frameRate: real)
    ensures FrameKey(FramePath(framesDir, SecText(h, frameRate))) == Ok(h as real / 100.0)
  {
    SecTextValue(h, frameRate);
    SignedFrameKey(framesDir, SecText(h, frameRate), h as real / 100.0);
  }

  /** `float(str(sec))` gives back `sec`, the signed zero included. */
  lemma SecTextValue(h: int, frameRate: real)
    ensures ParseSigned(SecText(h, frameRate)) == Ok(h as real / 100.0)
  {
    if h == 0 && frameRate < 0.0 {
      NegativeZeroValue();
    } else {
      FloatTextValue(h);
    }
  }

  /** `float("-0.0")` is zero. */
  lemma NegativeZeroValue()
    ensures ParseSigned("-0.0") == Ok(0.0)
  {
    var t := "-0.0";
    assert HundredthsText(0) == "0.0" by { assert NatToString(0) == "0"; }
    HundredthsValue(0);
    HundredthsChars(0);
    assert t[1..] == "0.0" && t[0] == '-' && !IsNumChar(t[0]);
  }

  lemma ParseZeroText()
    ensures ParseSigned("0") == Ok(0.0)
  {
    assert AllNumChars("0");
  }

  /** `float(str(sec))` gives back `sec`, for a time in hundredths of either sign. */
  lemma FloatTextValue(h: int)
    ensures ParseSigned(FloatText(h)) == Ok(h as real / 100.0)
  {
    var n: nat := if h < 0 then -h else h;
    var u := HundredthsText(n);
    HundredthsValue(n);
    assert AllNumChars(u) by { HundredthsChars(n); }
    if h < 0 {
      var t := "-" + u;
      assert t[1..] == u && t[0] == '-' && !IsNumChar(t[0]);
      assert ParseSigned(t) == Ok(-(n as real / 100.0));
    }
  }

  /** The text of a nonnegative time is digits around one dot. */
  lemma HundredthsChars(n: nat)
    ensures AllNumChars(HundredthsText(n))
  {
    var a, b := NatToString(n / 100), FractionText(n % 100);
    var u := a + "." + b;
    forall i | 0 <= i < |u| ensures IsNumChar(u[i]) {
      if i < |a| { assert u[i] == a[i]; }
      else if i > |a| { assert u[i] == b[i - |a| - 1]; }
    }
  }

  /** `float` reads the text of `n` hundredths as `n / 100`. */
  lemma HundredthsValue(n: nat)
    ensures ParseFloat(HundredthsText(n)) == Ok(n as real / 100.0)
  {
    var a, b := NatToString(n / 100), FractionText(n % 100);
    ParseFraction(a, b);
    DigitsOfNatToString(n / 100);
    FractionValue(n % 100);
    assert n == 100 * (n / 100) + n % 100;
  }

  /** The digits after the point give back the hundredths. */
  lemma FractionValue(m: nat)
    requires m < 100
    ensures DigitsValue(FractionText(m)) as real / Pow10(|FractionText(m)|) as real == m as real / 100.0
  {
    var s := FractionText(m);
    if m % 10 == 0 {
      assert s[..0] == [];
      assert DigitsValue(s) == m / 10;
      assert Pow10(1) == 10;
    } else {
      assert s[..1] == [DigitChar(m / 10)] && s[..1][..0] == [];
      assert DigitsValue(s[..1]) == m / 10;
      assert DigitValue(s[1]) == m % 10;
      assert DigitsValue(s) == (m / 10) * 10 + m % 10;
      assert Pow10(2) == 100;
    }
  }

  /** The key of `dir/image<num>.jpg` is the signed decimal `num` spells. */
  lemma SignedFrameKey(framesDir: string, num: string, x: real)
    requires ParseSigned(num) == Ok(x)
    ensures FrameKey(FramePath(framesDir, num)) == Ok(x)
  {
    assert NoSlash(num) by {
      forall i | 0 <= i < |num| ensures num[i] != '/' {
        if !AllNumChars(num) { assert i > 0 ==> num[i] == num[1..][i - 1]; }
      }
    }
    var stem := "image" + num;
    assert NoSlash(stem + ".jpg");
    assert FramePath(framesDir, num) == framesDir + "/" + stem + ".jpg";
    assert stem[0] == 'i';
    FileNameInDir(framesDir, stem, ".jpg");
    assert AfterPrefix(stem) == num;
  }
}
