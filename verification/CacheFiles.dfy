/** Which file names the HLS server hands out of its cache, against the names that ffmpeg writes there. */
module CacheFiles {
  import opened Wrappers
  import opened Text
  import Segmenter
  import Eviction

  function Power10(w: nat): (p: nat)
    ensures p > 0
  {
    if w == 0 then 1 else 10 * Power10(w - 1)
  }

  function Zeros(k: nat): (z: string)
    ensures |z| == k
  {
    if k == 0 then "" else Zeros(k - 1) + "0"
  }

  /** `%05d` of a segment number: at least five digits, zeros in front. */
  function FiveDigits(n: nat): string {
    var digits := Decimal(n);
    if |digits| < 5 then Zeros(5 - |digits|) + digits else digits
  }

  /** The name that ffmpeg gives to segment `n`, from the pattern `seg%05d.ts`. */
  function SegmentName(n: nat): string {
    "seg" + FiveDigits(n) + ".ts"
  }

  /** The last `w` decimal digits of `n`. */
  function LastDigits(n: nat, w: nat): (d: string)
    ensures |d| == w
  {
    if w == 0 then "" else LastDigits(n / 10, w - 1) + [DigitChar(n % 10)]
  }

  lemma {:induction false} DigitsReadBack(d: string)
    requires AllDigits(d)
    ensures LastDigits(DigitsValue(d), |d|) == d && DigitsValue(d) < Power10(|d|)
  {
    if d != "" {
      var n := |d| - 1;
      assert IsDigit(d[n]);
      DigitsReadBack(d[..n]);
      assert d == d[..n] + [d[n]];
    }
  }

  lemma {:induction false} LastDigitsAreDigits(n: nat, w: nat)
    ensures AllDigits(LastDigits(n, w))
  {
    if w > 0 { LastDigitsAreDigits(n / 10, w - 1); }
  }

  lemma {:induction false} ZerosInFront(n: nat, w: nat)
    requires w > 0
    ensures |Decimal(n)| <= w <==> n < Power10(w)
    ensures n < Power10(w) ==> LastDigits(n, w) == Zeros(w - |Decimal(n)|) + Decimal(n)
  {
    if n < 10 {
      ZerosOnly(w - 1);
      assert Power10(w) >= 10;
      assert n / 10 == 0;
    } else if w == 1 {
      assert |Decimal(n / 10)| > 0;
    } else {
      ZerosInFront(n / 10, w - 1);
      if n < Power10(w) {
        var zeros := Zeros(w - |Decimal(n)|);
        assert zeros + Decimal(n / 10) + [DigitChar(n % 10)] == zeros + (Decimal(n / 10) + [DigitChar(n % 10)]);
      }
    }
  }

  lemma {:induction false} ZerosOnly(w: nat)
    ensures LastDigits(0, w) == Zeros(w)
  {
    if w > 0 { ZerosOnly(w - 1); }
  }

  lemma FiveDigitsExactly(n: nat)
    ensures |FiveDigits(n)| == 5 <==> n < 100000
    ensures n < 100000 ==> FiveDigits(n) == LastDigits(n, 5)
  {
    ZerosInFront(n, 5);
    assert Power10(2) == 100 && Power10(4) == 10000 && Power10(5) == 100000;
  }

  predicate LooksLikeSegment(name: string) {
    |name| == 11 && name[..3] == "seg" && name[8..] == ".ts" && AllDigits(name[3..8])
  }

  lemma SegmentParts(digits: string)
    ensures var name := "seg" + digits + ".ts";
            |name| == 6 + |digits| && name[..3] == "seg" && name[3..3 + |digits|] == digits
              && name[3 + |digits|..] == ".ts"
  {}

  lemma LooksExactly(name: string)
    ensures LooksLikeSegment(name) <==> exists n: nat :: n < 100000 && name == SegmentName(n)
  {
    hide DigitsValue, FiveDigits, LastDigits;
    if LooksLikeSegment(name) {
      var d := name[3..8];
      DigitsReadBack(d);
      assert Power10(2) == 100 && Power10(4) == 10000 && Power10(5) == 100000;
      FiveDigitsExactly(DigitsValue(d));
      assert name == "seg" + d + ".ts";
      assert name == SegmentName(DigitsValue(d));
    }
    if n: nat :| n < 100000 && name == SegmentName(n) {
      FiveDigitsExactly(n);
      LastDigitsAreDigits(n, 5);
      SegmentParts(FiveDigits(n));
    }
  }

  /** Exactly the names of the first hundred thousand segments. */
  method IsSegmentFilename(name: string) returns (r: bool)
    ensures r <==> exists n: nat :: n < 100000 && name == SegmentName(n)
  {
    LooksExactly(name);
    if |name| != 11 || !("seg" <= name) || name[8..] != ".ts" {
      return false;
    }
    for i := 3 to 8
      invariant forall k :: 3 <= k < i ==> IsDigit(name[k])
    {
      if name[i] < '0' || name[i] > '9' {
        assert name[3..8][i - 3] in name[3..8];
        return false;
      }
    }
    return true;
  }

  /** A longer recording has segments that the server will not hand out. */
  lemma SegmentServedExactly(n: nat)
    ensures (exists k: nat :: k < 100000 && SegmentName(n) == SegmentName(k)) <==> n < 100000
  {
    hide FiveDigits;
    if k: nat :| k < 100000 && SegmentName(n) == SegmentName(k) {
      FiveDigitsExactly(k);
      FiveDigitsExactly(n);
      SegmentParts(FiveDigits(k));
      SegmentParts(FiveDigits(n));
    }
  }

  predicate IsCacheFilename(name: string) {
    name == "index.m3u8" || exists n: nat :: n < 100000 && name == SegmentName(n)
  }

  /** The lookup of a file in the cache: `Some` names the directory and the file of a path that exists. */
  method CachedFile(id: string, name: string, files: set<(string, string)>) returns (path: Option<(string, string)>)
    ensures path == if Segmenter.IsSafeRenditionId(id) && IsCacheFilename(name) && (id, name) in files
                    then Some((id, name)) else None
  {
    if !Segmenter.IsSafeRenditionId(id) {
      return None;
    }
    var segment := IsSegmentFilename(name);
    if name != "index.m3u8" && !segment {
      return None;
    }
    return if (id, name) in files then Some((id, name)) else None;
  }

  // ---------- the ids of cache directories ----------

  /** Letters, digits, dashes, underscores, colons and single dots, not too many and not named like a work directory. */
  lemma SafeIdExactly(id: string)
    ensures Segmenter.IsSafeRenditionId(id) <==>
            && 1 <= |id| <= 256
            && (forall i :: 0 <= i < |id| ==> IsAlnum(id[i]) || id[i] in "-_:.")
            && !(exists front :: id == front + ".part")
            && !(exists front, back :: id == front + ".." + back)
  {
    PartExactly(id);
    DotsExactly(id);
    forall i | 0 <= i < |id| ensures Segmenter.IsIdChar(id[i]) <==> IsAlnum(id[i]) || id[i] in "-_:." {
      MarksExactly(id[i]);
    }
    assert forall c :: c in id <==> exists i :: 0 <= i < |id| && id[i] == c;
  }

  lemma MarksExactly(c: char)
    ensures c in "-_:." <==> c == '-' || c == '_' || c == ':' || c == '.'
  {
    var marks := "-_:.";
    assert marks[0] == '-' && marks[1] == '_' && marks[2] == ':' && marks[3] == '.';
  }

  lemma PartExactly(id: string)
    ensures Eviction.IsPart(id) <==> exists front :: id == front + ".part"
  {
    if |id| >= 5 && id[|id| - 5..] == ".part" {
      assert id == id[..|id| - 5] + ".part";
    }
    if front :| id == front + ".part" {
      assert id[|id| - 5..] == ".part";
    }
  }

  lemma DotsExactly(id: string)
    ensures Segmenter.HasDots(id) <==> exists front, back :: id == front + ".." + back
  {
    if i :| 0 <= i < |id| - 1 && id[i] == '.' && id[i + 1] == '.' {
      assert id == id[..i] + ".." + id[i + 2..];
    }
    if front, back :| id == front + ".." + back {
      assert id[|front|] == '.' && id[|front| + 1] == '.';
    }
  }
}
