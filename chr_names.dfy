/** Chromosome-name helpers of src/modules/genomic/dna.ts: the `chr`
    prefix and the human chromosome numbering. */
module ChrNames {
  import opened Strs

  /** A chromosome given as a name or as a number (`string | number`);
      numbers are integers here. */
  datatype ChrArg = ChrName(s: string) | ChrNumber(n: int)

  /** `chr.toString()`. */
  function ChrText(chr: ChrArg): string {
    match chr
    case ChrName(s) => s
    case ChrNumber(n) => IntStr(n)
  }

  /** `formatChr`: the text of chr, with "chr" put in front unless it is
      already there. */
  function FormatChr(chr: ChrArg): (r: string)
    ensures "chr" <= r
    ensures "chr" <= ChrText(chr) ==> r == ChrText(chr)
    ensures !("chr" <= ChrText(chr)) ==> r == "chr" + ChrText(chr)
  {
    var s := ChrText(chr);
    if "chr" <= s then s else "chr" + s
  }

  /** Formatting a formatted name changes nothing. */
  lemma FormatChrIdempotent(chr: ChrArg)
    ensures FormatChr(ChrName(FormatChr(chr))) == FormatChr(chr)
  {
  }

  /** A number n becomes "chr" followed by its decimal digits. */
  lemma FormatChrNumber(n: nat)
    ensures FormatChr(ChrNumber(n)) == "chr" + NatStr(n)
  {
    NatStrDigits(n);
    assert NatStr(n)[0] != 'c';
  }

  /** `CHR_INDEX_MAP`. */
  const CHR_INDEX_MAP: map<string, int> := map[
    "chr1" := 1, "chr2" := 2, "chr3" := 3, "chr4" := 4, "chr5" := 5,
    "chr6" := 6, "chr7" := 7, "chr8" := 8, "chr9" := 9, "chr10" := 10,
    "chr11" := 11, "chr12" := 12, "chr13" := 13, "chr14" := 14, "chr15" := 15,
    "chr16" := 16, "chr17" := 17, "chr18" := 18, "chr19" := 19, "chr20" := 20,
    "chr21" := 21, "chr22" := 22, "chrX" := 23, "chrY" := 24, "chrM" := 25,
    "chrMT" := 25]

  /** `humanChrToNum`: the number of a known human chromosome, 1000 for
      any other name. */
  function HumanChrToNum(chr: string): (r: int)
    ensures chr in CHR_INDEX_MAP ==> 1 <= r <= 25
    ensures r == 1000 <==> chr !in CHR_INDEX_MAP
  {
    if chr in CHR_INDEX_MAP then CHR_INDEX_MAP[chr] else 1000
  }

  /** chr1..chr22 are numbered 1..22 (the name is "chr" and the decimal
      number); X, Y and the mitochondrion follow. */
  lemma HumanChrNumbers()
    ensures forall n :: 1 <= n <= 22 ==> HumanChrToNum("chr" + NatStr(n)) == n
    ensures HumanChrToNum("chrX") == 23 && HumanChrToNum("chrY") == 24
    ensures HumanChrToNum("chrM") == 25 && HumanChrToNum("chrMT") == 25
  {
    ChrNumbers1();
    ChrNumbers2();
    ChrNumbers3();
    ChrNumbers4();
    ChrNumbers5();
    ChrNumbers6();
    ChrLetters();
  }

  lemma ChrNumbers1()
    ensures forall n :: 1 <= n <= 4 ==> HumanChrToNum("chr" + NatStr(n)) == n
  {
    forall n | 1 <= n <= 4 ensures HumanChrToNum("chr" + NatStr(n)) == n {
      if n == 1 {
        assert "chr" + NatStr(1) == "chr1";
      } else if n == 2 {
        assert "chr" + NatStr(2) == "chr2";
      } else if n == 3 {
        assert "chr" + NatStr(3) == "chr3";
      } else if n == 4 {
        assert "chr" + NatStr(4) == "chr4";
      }
    }
  }

  lemma ChrNumbers2()
    ensures forall n :: 5 <= n <= 8 ==> HumanChrToNum("chr" + NatStr(n)) == n
  {
    forall n | 5 <= n <= 8 ensures HumanChrToNum("chr" + NatStr(n)) == n {
      if n == 5 {
        assert "chr" + NatStr(5) == "chr5";
      } else if n == 6 {
        assert "chr" + NatStr(6) == "chr6";
      } else if n == 7 {
        assert "chr" + NatStr(7) == "chr7";
      } else if n == 8 {
        assert "chr" + NatStr(8) == "chr8";
      }
    }
  }

  lemma ChrNumbers3()
    ensures forall n :: 9 <= n <= 12 ==> HumanChrToNum("chr" + NatStr(n)) == n
  {
    forall n | 9 <= n <= 12 ensures HumanChrToNum("chr" + NatStr(n)) == n {
      if n == 9 {
        assert "chr" + NatStr(9) == "chr9";
      } else if n == 10 {
        assert "chr" + NatStr(10) == "chr10";
      } else if n == 11 {
        assert "chr" + NatStr(11) == "chr11";
      } else if n == 12 {
        assert "chr" + NatStr(12) == "chr12";
      }
    }
  }

  lemma ChrNumbers4()
    ensures forall n :: 13 <= n <= 16 ==> HumanChrToNum("chr" + NatStr(n)) == n
  {
    forall n | 13 <= n <= 16 ensures HumanChrToNum("chr" + NatStr(n)) == n {
      if n == 13 {
        assert "chr" + NatStr(13) == "chr13";
      } else if n == 14 {
        assert "chr" + NatStr(14) == "chr14";
      } else if n == 15 {
        assert "chr" + NatStr(15) == "chr15";
      } else if n == 16 {
        assert "chr" + NatStr(16) == "chr16";
      }
    }
  }

  lemma ChrNumbers5()
    ensures forall n :: 17 <= n <= 19 ==> HumanChrToNum("chr" + NatStr(n)) == n
  {
    forall n | 17 <= n <= 19 ensures HumanChrToNum("chr" + NatStr(n)) == n {
      if n == 17 {
        assert "chr" + NatStr(17) == "chr17";
      } else if n == 18 {
        assert "chr" + NatStr(18) == "chr18";
      } else if n == 19 {
        assert "chr" + NatStr(19) == "chr19";
      }
    }
  }

  lemma ChrNumbers6()
    ensures forall n :: 20 <= n <= 22 ==> HumanChrToNum("chr" + NatStr(n)) == n
  {
    forall n | 20 <= n <= 22 ensures HumanChrToNum("chr" + NatStr(n)) == n {
      if n == 20 {
        assert "chr" + NatStr(20) == "chr20";
      } else if n == 21 {
        assert "chr" + NatStr(21) == "chr21";
      } else if n == 22 {
        assert "chr" + NatStr(22) == "chr22";
      }
    }
  }

  lemma ChrLetters()
    ensures HumanChrToNum("chrX") == 23 && HumanChrToNum("chrY") == 24
    ensures HumanChrToNum("chrM") == 25 && HumanChrToNum("chrMT") == 25
  {
  }

  /** Distinct chromosomes get distinct numbers, except that chrM and
      chrMT are the same. */
  lemma HumanChrToNumInjective(a: string, b: string)
    requires a in CHR_INDEX_MAP && b in CHR_INDEX_MAP && a != b
    requires !({a, b} == {"chrM", "chrMT"})
    ensures HumanChrToNum(a) != HumanChrToNum(b)
  {
  }
}
