/**
 * The bullet loop of `_parse_mode_5` of the PPT generator agent: the lines
 * after "Use EXACT content:" up to the next slide header or image instruction.
 */
module PptExactBullets {
  import opened Wrappers
  import opened Text
  import opened Scan
  import opened PptBlocks

  const BulletMark: char := '\U{2022}'

  /** Lines that end the exact bullets of a block: the next slide header, or an image instruction. */
  predicate ExactStop(ls: string)
  {
    StartsWithSlideHeader(ls) || StartsAt(Lower(ls), 0, "use image") || Lower(ls) == "no image"
  }

  /** Only lines that start with '-' or the bullet sign are bullets. */
  predicate IsMarked(ls: string)
  {
    ls != [] && (ls[0] == '-' || ls[0] == BulletMark)
  }

  /** The four prefix rules ("- ", "-", "• ", "•") all amount to dropping the marker and stripping. */
  function Mode5Bullet(ls: string): (r: string)
    requires IsMarked(ls)
    ensures r == Strip(ls[1..])
  {
    if StartsAt(ls, 0, "- ") || StartsAt(ls, 0, [BulletMark, ' ']) then
      assert ls[1..] == [' '] + ls[2..];
      StripSpaceFront(ls[2..]);
      Strip(ls[2..])
    else Strip(ls[1..])
  }

  lemma StripSpaceFront(x: string)
    ensures Strip([' '] + x) == Strip(x)
  {
    assert ([' '] + x)[1..] == x;
  }

  /** A line of the exact section that ends the bullets. */
  predicate StopLine(line: string)
  {
    ExactStop(Strip(line))
  }

  /** What a line of the exact section contributes: its bullet when it is marked and not empty. */
  function LineBullet(line: string): (r: Option<string>)
    ensures r.Some? ==> Tidy(r.value)
    ensures r.Some? <==> IsMarked(Strip(line)) && Strip(Strip(line)[1..]) != []
  {
    var ls := Strip(line);
    if IsMarked(ls) && Strip(ls[1..]) != [] then Some(Strip(ls[1..])) else None
  }

  /** The bullets of lines[k..] up to the first stop line, for a given stop test and bullet reader. */
  function TakeBullets(lines: seq<string>, k: nat, stop: string -> bool, bullet: string -> Option<string>): (r: seq<string>)
    requires k <= |lines|
    ensures |r| <= |lines| - k
    decreases |lines| - k
  {
    if k == |lines| || stop(lines[k]) then []
    else
      match bullet(lines[k])
      case Some(b) => [b] + TakeBullets(lines, k + 1, stop, bullet)
      case None => TakeBullets(lines, k + 1, stop, bullet)
  }

  /** A reader whose bullets are all tidy collects only tidy bullets. */
  lemma {:induction false} TakeBulletsTidy(lines: seq<string>, k: nat, stop: string -> bool, bullet: string -> Option<string>)
    requires k <= |lines|
    requires forall x :: bullet(x).Some? ==> Tidy(bullet(x).value)
    ensures forall i :: 0 <= i < |TakeBullets(lines, k, stop, bullet)| ==> Tidy(TakeBullets(lines, k, stop, bullet)[i])
    decreases |lines| - k
  {
    if k < |lines| && !stop(lines[k]) {
      TakeBulletsTidy(lines, k + 1, stop, bullet);
    }
  }

  /** Lines that each give one bullet, followed by nothing or by a stop line, give exactly those bullets. */
  lemma {:induction false} TakeBulletsAll(lines: seq<string>, n: nat, bs: seq<string>, k: nat, stop: string -> bool, bullet: string -> Option<string>)
    requires k <= n <= |lines| && |bs| == n
    requires forall i :: k <= i < n ==> !stop(lines[i]) && bullet(lines[i]) == Some(bs[i])
    requires n == |lines| || stop(lines[n])
    ensures TakeBullets(lines, k, stop, bullet) == bs[k..]
    decreases n - k
  {
    if k < n {
      TakeBulletsAll(lines, n, bs, k + 1, stop, bullet);
      assert bs[k..] == [bs[k]] + bs[k + 1..];
    }
  }

  /**
   * The bullets the Mode 5 loop collects from `lines`: each marked line
   * without its marker, stripped, up to the first stop line.
   */
  function ExactBullets(lines: seq<string>): (r: seq<string>)
    ensures |r| <= |lines|
  {
    TakeBullets(lines, 0, StopLine, LineBullet)
  }

  /** Every collected bullet is non-empty and stripped. */
  lemma ExactBulletsTidy(lines: seq<string>)
    ensures forall i :: 0 <= i < |ExactBullets(lines)| ==> Tidy(ExactBullets(lines)[i])
  {
    TakeBulletsTidy(lines, 0, StopLine, LineBullet);
  }

  /** A line starting with '-' is not a slide header. */
  lemma DashNotHeader(t: string)
    requires t != [] && t[0] == '-'
    ensures !StartsWithSlideHeader(t)
  {
    assert SpaceEnd(t, 0) == 0;
    assert !StartsAtCI(t, 0, "slide") by {
      if |t| >= 5 {
        assert Lower(t[0..5])[0] == '-';
      }
    }
  }

  /** A line starting with '-' is no image instruction. */
  lemma DashNotImage(t: string)
    requires t != [] && t[0] == '-'
    ensures !StartsAt(Lower(t), 0, "use image") && Lower(t) != "no image"
  {
    var low := Lower(t);
    assert low[0] == '-';
    assert !StartsAt(low, 0, "use image") by {
      if |low| >= 9 {
        assert low[0..9][0] == '-';
      }
    }
    assert "no image"[0] == 'n';
  }

  /** A dash line is a bullet line, and never a stop line. */
  lemma DashedNotStop(b: string)
    requires Tidy(b)
    ensures !StopLine("- " + b)
    ensures LineBullet("- " + b) == Some(b)
  {
    DashedLine(b);
    DashNotHeader("- " + b);
    DashNotImage("- " + b);
  }

  /**
   * Bullets written as "- bullet" lines, followed by nothing or by a stop line
   * ("No image", "Use Image 2", the next "Slide N:"), are read back exactly.
   */
  lemma Mode5DashedRoundTrip(bs: seq<string>, tail: seq<string>)
    requires forall i :: 0 <= i < |bs| ==> Tidy(bs[i])
    requires tail == [] || StopLine(tail[0])
    ensures ExactBullets(Dashed(bs) + tail) == bs
  {
    var ls := Dashed(bs) + tail;
    forall i | 0 <= i < |bs| ensures !StopLine(ls[i]) && LineBullet(ls[i]) == Some(bs[i]) {
      DashedNotStop(bs[i]);
    }
    TakeBulletsAll(ls, |bs|, bs, 0, StopLine, LineBullet);
  }

  /** The line loop of Mode 5 after "Use EXACT content:". */
  method CollectExactBullets(lines: seq<string>) returns (bullets: seq<string>)
    ensures bullets == ExactBullets(lines)
  {
    bullets := [];
    var k := 0;
    while k < |lines|
      invariant 0 <= k <= |lines|
      invariant bullets + TakeBullets(lines, k, StopLine, LineBullet) == ExactBullets(lines)
    {
      var stop, bullet := ReadExactLine(lines[k]);
      if stop {
        assert bullets + [] == bullets;
        break;
      }
      if bullet.Some? {
        assert bullets + TakeBullets(lines, k, StopLine, LineBullet)
          == (bullets + [bullet.value]) + TakeBullets(lines, k + 1, StopLine, LineBullet);
        bullets := bullets + [bullet.value];
      }
      k := k + 1;
    }
  }

  /** The body of the Mode 5 line loop: whether the line ends the bullets, and otherwise the bullet it gives. */
  method ReadExactLine(line: string) returns (stop: bool, bullet: Option<string>)
    ensures stop == StopLine(line)
    ensures !stop ==> bullet == LineBullet(line)
  {
    bullet := None;
    var ls := Strip(line);
    if StartsWithSlideHeader(ls) {
      return true, None;
    }
    var low := Lower(ls);
    if StartsAt(low, 0, "use image") || low == "no image" {
      return true, None;
    }
    stop := false;
    if IsMarked(ls) {
      var text := BulletText(ls);
      if text != [] {
        bullet := Some(text);
      }
    }
  }

  /** The prefix removal of the Mode 5 loop, rule by rule. */
  method BulletText(ls: string) returns (text: string)
    requires IsMarked(ls)
    ensures text == Strip(ls[1..])
  {
    if StartsAt(ls, 0, "- ") {
      text := Strip(ls[2..]);
    } else if ls[0] == '-' {
      text := Strip(ls[1..]);
    } else if StartsAt(ls, 0, [BulletMark, ' ']) {
      text := Strip(ls[2..]);
    } else {
      text := Strip(ls[1..]);
    }
    assert text == Mode5Bullet(ls);
  }
}
