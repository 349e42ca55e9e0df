/** The search-box query parser (src/lib/search.ts): the query is rewritten
    so that a space between words means AND, split into tokens, and turned
    into postfix order by the shunting-yard loop, AND binding tighter than
    OR. */
module Search {
  import opened Wrappers
  import opened Strs
  import opened Seqs

  // ------------------------------------------------------------ operators

  datatype Assoc = LeftAssoc | RightAssoc

  datatype OpInfo = OpInfo(prec: nat, assoc: Assoc)

  /** `OPERATORS`: precedence and associativity by operator text. */
  function Operators(o: string): Option<OpInfo> {
    if o == "AND" then Some(OpInfo(6, LeftAssoc))
    else if o == "OR" then Some(OpInfo(5, LeftAssoc))
    else if o == "^" then Some(OpInfo(4, RightAssoc))
    else if o == "*" || o == "/" then Some(OpInfo(3, LeftAssoc))
    else if o == "+" || o == "-" then Some(OpInfo(2, LeftAssoc))
    else None
  }

  /** The operator tokens the parser acts on. */
  predicate IsOp(t: string) {
    t == "AND" || t == "OR"
  }

  /** The test of the inner loop: the operator o2 on top of the stack is
      output before o1 is pushed when it binds tighter, or as tightly with
      o1 left-associative; an open parenthesis stops the loop. */
  predicate PopsBefore(o2: string, o1: string) {
    o2 != "(" && Operators(o2).Some? && Operators(o1).Some? &&
    (Operators(o2).value.prec > Operators(o1).value.prec ||
     (Operators(o2).value.prec == Operators(o1).value.prec && Operators(o1).value.assoc == LeftAssoc))
  }

  /** AND binds tighter than OR, both associate to the left, and an open
      parenthesis is never popped by an operator. */
  lemma Precedence()
    ensures PopsBefore("AND", "OR") && !PopsBefore("OR", "AND")
    ensures PopsBefore("AND", "AND") && PopsBefore("OR", "OR")
    ensures !PopsBefore("(", "AND") && !PopsBefore("(", "OR")
  {
  }

  // ------------------------------------------------------------ rewriting

  /** The length of the run of " AND" at the start of s. */
  function AndRun(s: string): (r: nat)
    ensures r <= |s|
    decreases |s|
  {
    if " AND" <= s then 4 + AndRun(s[4..]) else 0
  }

  /** `replaceAll(/AND( AND)+/g, "AND")`: scanning left to right, every
      longest run of two or more ANDs joined by single spaces becomes one
      AND. */
  function CollapseAnds(s: string): (r: string)
    decreases |s|
  {
    if |s| == 0 then s
    else if "AND AND" <= s then "AND" + CollapseAnds(s[3 + AndRun(s[3..])..])
    else [s[0]] + CollapseAnds(s[1..])
  }

  /** The rest of s after its leading spaces. */
  function DropSpaces(s: string): (r: string)
    ensures |r| <= |s|
    ensures |r| > 0 ==> r[0] != ' '
    decreases |s|
  {
    if |s| > 0 && s[0] == ' ' then DropSpaces(s[1..]) else s
  }

  /** `replaceAll(/ +/g, " ")`: every run of spaces becomes one space. */
  function SqueezeSpaces(s: string): (r: string)
    ensures |s| > 0 <==> |r| > 0
    ensures |s| > 0 ==> r[0] == s[0]
    ensures forall i :: 0 <= i < |r| - 1 && r[i] == ' ' ==> r[i + 1] != ' '
    decreases |s|
  {
    if |s| == 0 then s
    else if s[0] == ' ' then " " + SqueezeSpaces(DropSpaces(s[1..]))
    else [s[0]] + SqueezeSpaces(s[1..])
  }

  /** The rewriting before the split: a space means AND, " + " means AND,
      "AND OR" and "OR AND" mean OR, runs of AND collapse, parentheses get
      spaces around them. */
  function Rewrite(input: string): string {
    var s1 := ReplaceAll(input, " ", " AND ");
    var s2 := ReplaceAll(s1, " + ", " AND ");
    var s3 := ReplaceAll(s2, "AND OR", "OR");
    var s4 := ReplaceAll(s3, "OR AND", "OR");
    var s5 := CollapseAnds(s4);
    var s6 := ReplaceAll(s5, "(", " ( ");
    ReplaceAll(s6, ")", " ) ")
  }

  /** Then runs of spaces collapse and the leading space goes. */
  function Preprocess(input: string): string {
    TrimStart(SqueezeSpaces(Rewrite(input)))
  }

  /** `input.split(" ")` after the rewriting. */
  function Tokens(input: string): (r: seq<string>)
    ensures |r| >= 1 && forall k :: 0 <= k < |r| ==> ' ' !in r[k]
  {
    var p := Preprocess(input);
    SplitNoSeparator(p, ' ');
    Split(p, ' ')
  }

  /** The rewritten query neither starts with a space nor holds two spaces
      in a row, so every token but the last is a non-empty word (the last is
      empty when the rewritten query ends with a space, as it does after a
      closing parenthesis). */
  lemma TokensNonEmpty(input: string)
    ensures forall k :: 0 <= k < |Tokens(input)| - 1 ==> Tokens(input)[k] != ""
  {
    var q := SqueezeSpaces(Rewrite(input));
    var p := TrimStart(q);
    var d := |q| - |p|;
    forall i | 0 <= i < |p| - 1 && p[i] == ' ' ensures p[i + 1] != ' ' {
      assert q[d + i] == ' ';
    }
    SplitPiecesNonEmpty(p, ' ');
  }

  /** A run of two ANDs between words (the query "w AND v", whose space
      became " AND " too) becomes one. */
  lemma AndRunsCollapse(w: string, v: string)
    requires 'A' !in w && 'A' !in v
    ensures CollapseAnds(w + " AND AND " + v) == w + " AND " + v
  {
    CollapseAfter(w, " AND AND " + v);
    AndRunMiddle(v);
    assert w + " AND AND " + v == w + (" AND AND " + v);
  }

  /** Text without an 'A' is passed over unchanged. */
  lemma {:induction false} CollapseAfter(w: string, rest: string)
    requires 'A' !in w
    ensures CollapseAnds(w + rest) == w + CollapseAnds(rest)
  {
    if |w| > 0 {
      assert (w + rest)[1..] == w[1..] + rest;
      assert (w + rest)[0] == w[0];
      CollapseAfter(w[1..], rest);
    } else {
      assert w + rest == rest;
    }
  }

  lemma AndRunMiddle(v: string)
    requires 'A' !in v
    ensures CollapseAnds(" AND AND " + v) == " AND " + v
  {
    var t := " AND AND " + v;
    MiddlePieces(t, v);
    CollapseKeeps(t, t[1..]);
    CollapseRun(t[1..], v);
  }

  /** Where the pieces of " AND AND v" are. */
  lemma MiddlePieces(t: string, v: string)
    requires t == " AND AND " + v
    ensures |t| > 0 && t[0] == ' ' && t[1..] == "AND AND " + v
    ensures [t[0]] + ("AND " + v) == " AND " + v
  {
  }

  /** A character other than 'A' is kept. */
  lemma CollapseKeeps(s: string, rest: string)
    requires |s| > 0 && s[0] != 'A' && s[1..] == rest
    ensures CollapseAnds(s) == [s[0]] + CollapseAnds(rest)
  {
  }

  /** "AND AND v" becomes "AND v". */
  lemma CollapseRun(s: string, v: string)
    requires 'A' !in v && s == "AND AND " + v
    ensures CollapseAnds(s) == "AND " + v
  {
    RunPieces(s, v);
    AndRunOne(s[3..], v);
    CollapseAndStep(s, 4, s[7..]);
    CollapsePlain(s[7..]);
  }

  /** Where the pieces of "AND AND v" are. */
  lemma RunPieces(s: string, v: string)
    requires 'A' !in v && s == "AND AND " + v
    ensures "AND AND" <= s && s[3..] == " AND " + v && s[7..] == " " + v
    ensures 'A' !in s[7..] && "AND" + s[7..] == "AND " + v
  {
    assert s[..7] == "AND AND";
  }

  /** Text without an 'A' is unchanged. */
  lemma {:induction false} CollapsePlain(u: string)
    requires 'A' !in u
    ensures CollapseAnds(u) == u
  {
    if |u| > 0 {
      CollapsePlain(u[1..]);
      CollapseKeeps(u, u[1..]);
    }
  }

  /** At "AND AND" the run of ANDs after the first becomes nothing. */
  lemma CollapseAndStep(s: string, k: nat, rest: string)
    requires "AND AND" <= s && k == AndRun(s[3..]) && rest == s[3 + k..]
    ensures CollapseAnds(s) == "AND" + CollapseAnds(rest)
  {
  }

  /** The run after "AND" in "AND AND v" is one " AND". */
  lemma AndRunOne(t: string, v: string)
    requires 'A' !in v && t == " AND " + v
    ensures AndRun(t) == 4
  {
    assert t[..4] == " AND";
    assert t[4..] == " " + v;
    AndRunSpace(t[4..], v);
  }

  lemma AndRunSpace(u: string, v: string)
    requires 'A' !in v && u == " " + v
    ensures AndRun(u) == 0
  {
    if |v| > 0 {
      assert u[1] == v[0];
    }
  }

  // ------------------------------------------------------------ what the rewriting means

  /** A plain search word: not empty, no white space, and none of 'A', 'O',
      '+', '(' and ')', so it neither spells nor starts an operator. The
      letters 'A' and 'O' are excluded because the rewriting replaces text
      without regard to word boundaries: in "BRCA ORAL" the space becomes
      " AND ", and "AND OR" then turns "AND ORAL" into "ORAL", so no AND
      is left between the words (`OrWordLosesAnd`); in "BRAND X" the
      word's own ending and the AND from the space form "AND AND", which
      collapses, with the same result. */
  predicate Word(w: string) {
    |w| > 0 && forall i | 0 <= i < |w| :: !IsSpace(w[i]) && w[i] !in "AO+()"
  }

  lemma WordFacts(w: string)
    requires Word(w)
    ensures ' ' !in w && 'A' !in w && 'O' !in w && '+' !in w && '(' !in w && ')' !in w
    ensures !IsSpace(w[0])
  {
    forall c | c in w ensures c != ' ' && c !in "AO+()" {
      var i :| 0 <= i < |w| && w[i] == c;
    }
  }

  /** A character absent from three pieces is absent from their join. */
  lemma NotIn(c: char, w: string, m: string, v: string)
    requires c !in w && c !in m && c !in v
    ensures c !in w + m + v
  {
  }

  /** Text without a space is passed over by the squeeze. */
  lemma {:induction false} SqueezeAfter(x: string, rest: string)
    requires ' ' !in x
    ensures SqueezeSpaces(x + rest) == x + SqueezeSpaces(rest)
    decreases |x|
  {
    if |x| == 0 {
      assert x + rest == rest;
    } else {
      assert (x + rest)[1..] == x[1..] + rest;
      assert (x + rest)[0] == x[0];
      SqueezeAfter(x[1..], rest);
      assert x == [x[0]] + x[1..];
    }
  }

  /** One space before text that does not start with a space stays. */
  lemma SqueezeSpace(j: string)
    requires |j| > 0 && j[0] != ' ' && SqueezeSpaces(j) == j
    ensures SqueezeSpaces(" " + j) == " " + j
  {
    assert (" " + j)[1..] == j;
  }

  /** Words joined by a separator start with the first word. */
  lemma JoinHead(parts: seq<string>, sep: string)
    requires |parts| >= 1 && |parts[0]| > 0
    ensures |Join(parts, sep)| > 0 && Join(parts, sep)[0] == parts[0][0]
  {
  }

  /** Words joined by single spaces have no run of spaces to squeeze. */
  lemma {:induction false} SqueezeJoin(parts: seq<string>)
    requires |parts| >= 1
    requires forall k :: 0 <= k < |parts| ==> |parts[k]| > 0 && ' ' !in parts[k]
    ensures SqueezeSpaces(Join(parts, " ")) == Join(parts, " ")
    decreases |parts|
  {
    var p := parts[0];
    if |parts| == 1 {
      SqueezeAfter(p, "");
      assert p + "" == p;
    } else {
      var tail := parts[1..];
      var j := Join(tail, " ");
      SqueezeJoin(tail);
      assert parts == [p] + tail;
      JoinCons(p, tail, " ");
      JoinHead(tail, " ");
      SqueezeCons(p, j);
    }
  }

  /** A word, one space and squeezed text that does not start with a space
      are already squeezed. */
  lemma SqueezeCons(p: string, j: string)
    requires ' ' !in p && |j| > 0 && j[0] != ' ' && SqueezeSpaces(j) == j
    ensures SqueezeSpaces(p + " " + j) == p + " " + j
  {
    SqueezeSpace(j);
    SqueezeAfter(p, " " + j);
    assert p + " " + j == p + (" " + j);
  }

  /** When the rewriting leaves words joined by single spaces, the tokens
      are those words. */
  lemma TokensOfRewrite(input: string, parts: seq<string>)
    requires |parts| >= 1 && forall k :: 0 <= k < |parts| ==> |parts[k]| > 0 && ' ' !in parts[k]
    requires !IsSpace(parts[0][0])
    requires Rewrite(input) == Join(parts, " ")
    ensures Tokens(input) == parts
  {
    SqueezeJoin(parts);
    JoinHead(parts, " ");
    SplitJoin(parts, ' ');
  }

  lemma JoinThree(a: string, b: string, c: string)
    ensures Join([a, b, c], " ") == a + " " + b + " " + c
  {
    JoinCons(b, [c], " ");
    assert [b, c] == [b] + [c];
    JoinCons(a, [b, c], " ");
    assert [a, b, c] == [a] + [b, c];
  }

  lemma JoinFour(a: string, b: string, c: string, d: string)
    ensures Join([a, b, c, d], " ") == a + " " + b + " " + c + " " + d
  {
    JoinThree(b, c, d);
    JoinCons(a, [b, c, d], " ");
    assert [a, b, c, d] == [a] + [b, c, d];
  }

  // The shapes of the strings the rewriting goes through.

  lemma AndShapes(w: string, v: string)
    ensures w + " AND " + v == (w + " ") + ("AND " + v)
    ensures w + " AND AND AND " + v == (w + " ") + ("AND AND AND " + v)
    ensures w + " AND AND OR " + v == (w + " ") + ("AND AND OR " + v)
    ensures (w + " ") + ("AND OR " + v) == w + " AND OR " + v
    ensures w + " " + "AND" + " " + v == w + " AND " + v
    ensures w + " " + "OR" + " " + v == w + " OR " + v
    ensures w + " " + "AND" + " " + "OR" + " " + v == w + " AND OR " + v
  {
  }

  /** "AND v" with no 'A' in v is left alone. */
  lemma CollapseAndWord(v: string)
    requires 'A' !in v
    ensures CollapseAnds("AND " + v) == "AND " + v
  {
    var s := "AND " + v;
    if |s| >= 7 {
      assert s[4] == v[0] && v[0] in v;
    }
    assert s[1..] == "ND " + v;
    CollapsePlain("ND " + v);
  }

  /** " AND " between words survives the collapse. */
  lemma CollapseSingle(w: string, v: string)
    requires 'A' !in w && 'A' !in v
    ensures CollapseAnds(w + " AND " + v) == w + " AND " + v
  {
    AndShapes(w, v);
    CollapseAfter(w + " ", "AND " + v);
    CollapseAndWord(v);
  }

  /** "AND AND AND v" collapses to "AND v". */
  lemma CollapseRun3(v: string)
    requires 'A' !in v
    ensures CollapseAnds("AND AND AND " + v) == "AND " + v
  {
    var s := "AND AND AND " + v;
    Run3Pieces(s, v);
    AndRunTwo(s[3..], v);
    CollapseAndStep(s, 8, s[11..]);
    CollapsePlain(s[11..]);
  }

  /** Where the pieces of "AND AND AND v" are. */
  lemma Run3Pieces(s: string, v: string)
    requires 'A' !in v && s == "AND AND AND " + v
    ensures "AND AND" <= s && s[3..] == " AND AND " + v && s[11..] == " " + v
    ensures 'A' !in s[11..] && "AND" + s[11..] == "AND " + v
  {
    assert s[..7] == "AND AND";
  }

  /** The run after "AND" in "AND AND AND v" is two " AND"s. */
  lemma AndRunTwo(t: string, v: string)
    requires 'A' !in v && t == " AND AND " + v
    ensures AndRun(t) == 8
  {
    assert t[..4] == " AND";
    assert t[4..] == " AND " + v;
    AndRunOne(t[4..], v);
  }

  /** "AND AND OR v" collapses to "AND OR v". */
  lemma CollapseRunOr(v: string)
    requires 'A' !in v
    ensures CollapseAnds("AND AND OR " + v) == "AND OR " + v
  {
    var s := "AND AND OR " + v;
    RunOrPieces(s, v);
    AndRunBeforeOr(s[3..], v);
    CollapseAndStep(s, 4, s[7..]);
    CollapsePlain(s[7..]);
  }

  /** Where the pieces of "AND AND OR v" are. */
  lemma RunOrPieces(s: string, v: string)
    requires 'A' !in v && s == "AND AND OR " + v
    ensures "AND AND" <= s && s[3..] == " AND OR " + v && s[7..] == " OR " + v
    ensures 'A' !in s[7..] && "AND" + s[7..] == "AND OR " + v
  {
    assert s[..7] == "AND AND";
  }

  /** The run after "AND" in "AND AND OR v" is one " AND". */
  lemma AndRunBeforeOr(t: string, v: string)
    requires t == " AND OR " + v
    ensures AndRun(t) == 4
  {
    assert t[..4] == " AND";
    assert t[4..] == " OR " + v;
    AndRunOr(t[4..], v);
  }

  lemma AndRunOr(u: string, v: string)
    requires u == " OR " + v
    ensures AndRun(u) == 0
  {
    assert u[1] == 'O';
  }

  /** Three ANDs in a row between words collapse to one. */
  lemma CollapseTriple(w: string, v: string)
    requires 'A' !in w && 'A' !in v
    ensures CollapseAnds(w + " AND AND AND " + v) == w + " AND " + v
  {
    AndShapes(w, v);
    CollapseAfter(w + " ", "AND AND AND " + v);
    CollapseRun3(v);
  }

  /** "AND AND OR" between words collapses to "AND OR". */
  lemma CollapseAndOr(w: string, v: string)
    requires 'A' !in w && 'A' !in v
    ensures CollapseAnds(w + " AND AND OR " + v) == w + " AND OR " + v
  {
    AndShapes(w, v);
    CollapseAfter(w + " ", "AND AND OR " + v);
    CollapseRunOr(v);
  }

  /** Text holding no '+', 'O' or parenthesis goes through the
      replacements other than the first unchanged. */
  lemma PlainReplacements(s: string)
    requires '+' !in s && 'O' !in s && '(' !in s && ')' !in s
    ensures ReplaceAll(s, " + ", " AND ") == s
    ensures ReplaceAll(s, "AND OR", "OR") == s && ReplaceAll(s, "OR AND", "OR") == s
    ensures ReplaceAll(s, "(", " ( ") == s && ReplaceAll(s, ")", " ) ") == s
  {
    ReplaceAllMissing(s, " + ", " AND ", 1);
    ReplaceAllMissing(s, "AND OR", "OR", 4);
    ReplaceAllMissing(s, "OR AND", "OR", 0);
    ReplaceAllMissing(s, "(", " ( ", 0);
    ReplaceAllMissing(s, ")", " ) ", 0);
  }

  /** Text holding no parenthesis goes through their replacements unchanged. */
  lemma NoParens(s: string)
    requires '(' !in s && ')' !in s
    ensures ReplaceAll(s, "(", " ( ") == s && ReplaceAll(s, ")", " ) ") == s
  {
    ReplaceAllMissing(s, "(", " ( ", 0);
    ReplaceAllMissing(s, ")", " ) ", 0);
  }

  /** Words around a middle m free of '+', 'O' and parentheses. */
  lemma PlainAround(w: string, m: string, v: string)
    requires Word(w) && Word(v)
    requires '+' !in m && 'O' !in m && '(' !in m && ')' !in m
    ensures '+' !in w + m + v && 'O' !in w + m + v && '(' !in w + m + v && ')' !in w + m + v
  {
    WordFacts(w);
    WordFacts(v);
    NotIn('+', w, m, v);
    NotIn('O', w, m, v);
    NotIn('(', w, m, v);
    NotIn(')', w, m, v);
  }

  // The first replacement, a space meaning AND, on each shape of query.

  lemma SpacedShapes(w: string, v: string)
    ensures w + " " + v == w + (" " + v)
    ensures w + (" AND " + v) == w + " AND " + v
    ensures w + " AND " + v == w + (" " + ("AND" + (" " + v)))
    ensures w + (" AND " + ("AND" + (" AND " + v))) == w + " AND AND AND " + v
    ensures w + " + " + v == w + (" " + ("+" + (" " + v)))
    ensures w + (" AND " + ("+" + (" AND " + v))) == w + " AND + AND " + v
    ensures w + " OR " + v == w + (" " + ("OR" + (" " + v)))
    ensures w + (" AND " + ("OR" + (" AND " + v))) == w + " AND OR AND " + v
  {
  }

  lemma SpacedOne(w: string, v: string)
    requires ' ' !in w && ' ' !in v
    ensures ReplaceAll(w + " " + v, " ", " AND ") == w + " AND " + v
  {
    SpacedShapes(w, v);
    ReplaceAllPast(w, " " + v, " ", " AND ");
    ReplaceAllHit(v, " ", " AND ");
    ReplaceAllAbsent(v, " ", " AND ");
  }

  /** Spacing " m v" for words m and v gives m between " AND "s. */
  lemma SpacedFrom(m: string, v: string)
    requires ' ' !in m && ' ' !in v
    ensures ReplaceAll(" " + (m + (" " + v)), " ", " AND ") == " AND " + (m + (" AND " + v))
  {
    ReplaceAllHit(m + (" " + v), " ", " AND ");
    ReplaceAllPast(m, " " + v, " ", " AND ");
    ReplaceAllHit(v, " ", " AND ");
    ReplaceAllAbsent(v, " ", " AND ");
  }

  /** Spacing a word m between two words gives m between " AND "s. */
  lemma SpacedMiddle(w: string, m: string, v: string)
    requires ' ' !in w && ' ' !in m && ' ' !in v
    ensures ReplaceAll(w + (" " + (m + (" " + v))), " ", " AND ") == w + (" AND " + (m + (" AND " + v)))
  {
    ReplaceAllPast(w, " " + (m + (" " + v)), " ", " AND ");
    SpacedFrom(m, v);
  }

  lemma SpacedAnd(w: string, v: string)
    requires ' ' !in w && ' ' !in v
    ensures ReplaceAll(w + " AND " + v, " ", " AND ") == w + " AND AND AND " + v
  {
    SpacedShapes(w, v);
    SpacedMiddle(w, "AND", v);
  }

  lemma SpacedPlus(w: string, v: string)
    requires ' ' !in w && ' ' !in v
    ensures ReplaceAll(w + " + " + v, " ", " AND ") == w + " AND + AND " + v
  {
    SpacedShapes(w, v);
    SpacedMiddle(w, "+", v);
  }

  lemma SpacedOr(w: string, v: string)
    requires ' ' !in w && ' ' !in v
    ensures ReplaceAll(w + " OR " + v, " ", " AND ") == w + " AND OR AND " + v
  {
    SpacedShapes(w, v);
    SpacedMiddle(w, "OR", v);
  }

  lemma PlusShapes(w: string, v: string)
    ensures w + " AND + AND " + v == w + ([' '] + ("AND" + (" + " + ("AND" + (" " + v)))))
    ensures w + ([' '] + ("AND" + (" AND " + ("AND" + (" " + v))))) == w + " AND AND AND " + v
    ensures ([' '] + ("AND" + (" + " + ("AND" + (" " + v)))))[1] == 'A'
  {
  }

  /** " + " is replaced by " AND ". */
  lemma PlusReplaced(w: string, v: string)
    requires ' ' !in w && '+' !in v
    ensures ReplaceAll(w + " AND + AND " + v, " + ", " AND ") == w + " AND AND AND " + v
  {
    PlusShapes(w, v);
    var u := "AND" + (" + " + ("AND" + (" " + v)));
    ReplaceAllPast(w, [' '] + u, " + ", " AND ");
    ReplaceAllKeep(' ', u, " + ", " AND ");
    ReplaceAllPast("AND", " + " + ("AND" + (" " + v)), " + ", " AND ");
    ReplaceAllHit("AND" + (" " + v), " + ", " AND ");
    ReplaceAllPast("AND", " " + v, " + ", " AND ");
    ReplaceAllMissing(" " + v, " + ", " AND ", 1);
  }

  lemma OrShapes(w: string, v: string)
    ensures w + " AND OR AND " + v == (w + " ") + ("AND OR" + (" AND " + v))
    ensures (w + " ") + ("OR" + (" AND " + v)) == w + " OR AND " + v
    ensures w + " OR AND " + v == (w + " ") + ("OR AND" + (" " + v))
    ensures (w + " ") + ("OR" + (" " + v)) == w + " OR " + v
  {
  }

  /** "AND OR" becomes "OR" and then "OR AND" becomes "OR". */
  lemma OrReplaced(w: string, v: string)
    requires 'A' !in w && 'O' !in w && 'O' !in v
    ensures ReplaceAll(w + " AND OR AND " + v, "AND OR", "OR") == w + " OR AND " + v
    ensures ReplaceAll(w + " OR AND " + v, "OR AND", "OR") == w + " OR " + v
  {
    OrShapes(w, v);
    ReplaceAllPast(w + " ", "AND OR" + (" AND " + v), "AND OR", "OR");
    ReplaceAllHit(" AND " + v, "AND OR", "OR");
    ReplaceAllMissing(" AND " + v, "AND OR", "OR", 4);
    ReplaceAllPast(w + " ", "OR AND" + (" " + v), "OR AND", "OR");
    ReplaceAllHit(" " + v, "OR AND", "OR");
    ReplaceAllMissing(" " + v, "OR AND", "OR", 0);
  }

  lemma AndOrShapes(w: string, v: string)
    ensures w + " AND OR " + v == w + (" " + ("AND" + (" " + ("OR" + (" " + v)))))
    ensures w + (" AND " + ("AND" + (" AND " + ("OR" + (" AND " + v))))) == w + " AND AND AND OR AND " + v
    ensures w + " AND AND AND OR AND " + v == (w + " ") + (['A'] + ("ND " + (['A'] + ("ND " + ("AND OR" + (" AND " + v))))))
    ensures (w + " ") + (['A'] + ("ND " + (['A'] + ("ND " + ("OR" + (" AND " + v)))))) == w + " AND AND OR AND " + v
    ensures w + " AND AND OR AND " + v == (w + " AND AND ") + ("OR AND" + (" " + v))
    ensures (w + " AND AND ") + ("OR" + (" " + v)) == w + " AND AND OR " + v
  {
  }

  /** The spacing of "w AND OR v". */
  lemma AndOrSpaced(w: string, v: string)
    requires ' ' !in w && ' ' !in v
    ensures ReplaceAll(w + " AND OR " + v, " ", " AND ") == w + " AND AND AND OR AND " + v
  {
    AndOrShapes(w, v);
    ReplaceAllPast(w, " " + ("AND" + (" " + ("OR" + (" " + v)))), " ", " AND ");
    ReplaceAllHit("AND" + (" " + ("OR" + (" " + v))), " ", " AND ");
    ReplaceAllPast("AND", " " + ("OR" + (" " + v)), " ", " AND ");
    SpacedFrom("OR", v);
  }

  /** Only the AND right before OR goes. */
  lemma AndOrFirst(w: string, v: string)
    requires 'A' !in w && 'O' !in v
    ensures ReplaceAll(w + " AND AND AND OR AND " + v, "AND OR", "OR") == w + " AND AND OR AND " + v
  {
    AndOrShapes(w, v);
    var c := "ND " + ("AND OR" + (" AND " + v));
    var b := "ND " + (['A'] + c);
    NotAndOr(b, ['A'] + c);
    NotAndOr(c, "AND OR" + (" AND " + v));
    ReplaceAllPast(w + " ", ['A'] + b, "AND OR", "OR");
    ReplaceAllKeep('A', b, "AND OR", "OR");
    ReplaceAllPast("ND ", ['A'] + c, "AND OR", "OR");
    ReplaceAllKeep('A', c, "AND OR", "OR");
    ReplaceAllPast("ND ", "AND OR" + (" AND " + v), "AND OR", "OR");
    ReplaceAllHit(" AND " + v, "AND OR", "OR");
    ReplaceAllMissing(" AND " + v, "AND OR", "OR", 4);
  }

  /** "AND" followed by another AND is no "AND OR". */
  lemma NotAndOr(b: string, rest: string)
    requires b == "ND " + rest && |rest| > 0 && rest[0] == 'A'
    ensures !("AND OR" <= ['A'] + b)
  {
    assert (['A'] + b)[4] == 'A';
  }

  /** Then the AND right after OR goes. */
  lemma AndOrSecond(w: string, v: string)
    requires 'O' !in w && 'O' !in v
    ensures ReplaceAll(w + " AND AND OR AND " + v, "OR AND", "OR") == w + " AND AND OR " + v
  {
    AndOrShapes(w, v);
    ReplaceAllPast(w + " AND AND ", "OR AND" + (" " + v), "OR AND", "OR");
    ReplaceAllHit(" " + v, "OR AND", "OR");
    ReplaceAllMissing(" " + v, "OR AND", "OR", 0);
  }

  // What the rewriting does to two words.

  /** Rewrite is its seven replacements one after the other. */
  lemma RewriteSteps(input: string, s1: string, s2: string, s3: string, s4: string,
                     s5: string, s6: string, r: string)
    requires ReplaceAll(input, " ", " AND ") == s1
    requires ReplaceAll(s1, " + ", " AND ") == s2
    requires ReplaceAll(s2, "AND OR", "OR") == s3
    requires ReplaceAll(s3, "OR AND", "OR") == s4
    requires CollapseAnds(s4) == s5
    requires ReplaceAll(s5, "(", " ( ") == s6
    requires ReplaceAll(s6, ")", " ) ") == r
    ensures Rewrite(input) == r
  {
  }

  /** A query rewritten to "w AND v" splits into w, AND and v. */
  lemma TokensAnd(input: string, w: string, v: string)
    requires Word(w) && Word(v) && Rewrite(input) == w + " AND " + v
    ensures Tokens(input) == [w, "AND", v]
  {
    WordFacts(w);
    JoinThree(w, "AND", v);
    assert w + " " + "AND" + " " + v == w + " AND " + v;
    TokensOfRewrite(input, [w, "AND", v]);
  }

  /** A query rewritten to "w OR v" splits into w, OR and v. */
  lemma TokensOr(input: string, w: string, v: string)
    requires Word(w) && Word(v) && Rewrite(input) == w + " OR " + v
    ensures Tokens(input) == [w, "OR", v]
  {
    WordFacts(w);
    JoinThree(w, "OR", v);
    assert w + " " + "OR" + " " + v == w + " OR " + v;
    TokensOfRewrite(input, [w, "OR", v]);
  }

  /** A query rewritten to "w AND OR v" splits into w, AND, OR and v. */
  lemma TokensAndOr(input: string, w: string, v: string)
    requires Word(w) && Word(v) && Rewrite(input) == w + " AND OR " + v
    ensures Tokens(input) == [w, "AND", "OR", v]
  {
    WordFacts(w);
    JoinFour(w, "AND", "OR", v);
    assert w + " " + "AND" + " " + "OR" + " " + v == w + " AND OR " + v;
    TokensOfRewrite(input, [w, "AND", "OR", v]);
  }

  /** The space between two words becomes AND. */
  lemma SpaceMeansAnd(w: string, v: string)
    requires Word(w) && Word(v)
    ensures Tokens(w + " " + v) == [w, "AND", v]
  {
    WordFacts(w);
    WordFacts(v);
    var m := w + " AND " + v;
    SpacedOne(w, v);
    PlainAround(w, " AND ", v);
    PlainReplacements(m);
    CollapseSingle(w, v);
    RewriteSteps(w + " " + v, m, m, m, m, m, m, m);
    TokensAnd(w + " " + v, w, v);
  }

  /** The rest of the rewriting once three ANDs stand between two words. */
  lemma TripleRest(w: string, v: string)
    requires Word(w) && Word(v)
    ensures var t := w + " AND AND AND " + v;
            ReplaceAll(t, " + ", " AND ") == t &&
            ReplaceAll(t, "AND OR", "OR") == t && ReplaceAll(t, "OR AND", "OR") == t &&
            CollapseAnds(t) == w + " AND " + v
    ensures ReplaceAll(w + " AND " + v, "(", " ( ") == w + " AND " + v
    ensures ReplaceAll(w + " AND " + v, ")", " ) ") == w + " AND " + v
  {
    WordFacts(w);
    WordFacts(v);
    PlainAround(w, " AND AND AND ", v);
    PlainReplacements(w + " AND AND AND " + v);
    CollapseTriple(w, v);
    PlainAround(w, " AND ", v);
    NoParens(w + " AND " + v);
  }

  /** An explicit AND between two words stays one AND. */
  lemma AndKept(w: string, v: string)
    requires Word(w) && Word(v)
    ensures Tokens(w + " AND " + v) == [w, "AND", v]
  {
    WordFacts(w);
    WordFacts(v);
    var t := w + " AND AND AND " + v;
    var m := w + " AND " + v;
    SpacedAnd(w, v);
    TripleRest(w, v);
    RewriteSteps(m, t, t, t, t, m, m, m);
    TokensAnd(m, w, v);
  }

  /** " + " between two words means AND. */
  lemma PlusMeansAnd(w: string, v: string)
    requires Word(w) && Word(v)
    ensures Tokens(w + " + " + v) == [w, "AND", v]
  {
    WordFacts(w);
    WordFacts(v);
    var t := w + " AND AND AND " + v;
    var m := w + " AND " + v;
    SpacedPlus(w, v);
    PlusReplaced(w, v);
    TripleRest(w, v);
    RewriteSteps(w + " + " + v, w + " AND + AND " + v, t, t, t, m, m, m);
    TokensAnd(w + " + " + v, w, v);
  }

  /** An explicit OR between two words stays one OR: the ANDs the spaces
      put around it are removed again. */
  lemma OrKept(w: string, v: string)
    requires Word(w) && Word(v)
    ensures Tokens(w + " OR " + v) == [w, "OR", v]
  {
    WordFacts(w);
    WordFacts(v);
    var s := w + " OR " + v;
    var t := w + " AND OR AND " + v;
    SpacedOr(w, v);
    NotIn('+', w, " AND OR AND ", v);
    ReplaceAllMissing(t, " + ", " AND ", 1);
    OrReplaced(w, v);
    NotIn('A', w, " OR ", v);
    CollapsePlain(s);
    NotIn('(', w, " OR ", v);
    NotIn(')', w, " OR ", v);
    NoParens(s);
    RewriteSteps(s, t, t, w + " OR AND " + v, s, s, s, s);
    TokensOr(s, w, v);
  }

  /** The rewriting of "w AND OR v", step by step. */
  lemma AndOrRewrite(w: string, v: string)
    requires Word(w) && Word(v)
    ensures Rewrite(w + " AND OR " + v) == w + " AND OR " + v
  {
    WordFacts(w);
    WordFacts(v);
    var s := w + " AND OR " + v;
    var t := w + " AND AND AND OR AND " + v;
    AndOrSpaced(w, v);
    NotIn('+', w, " AND AND AND OR AND ", v);
    ReplaceAllMissing(t, " + ", " AND ", 1);
    AndOrFirst(w, v);
    AndOrSecond(w, v);
    CollapseAndOr(w, v);
    NotIn('(', w, " AND OR ", v);
    NotIn(')', w, " AND OR ", v);
    NoParens(s);
    RewriteSteps(s, t, t, w + " AND AND OR AND " + v, w + " AND AND OR " + v, s, s, s);
  }

  /** "AND OR" typed between two words keeps both operators: the spaces
      turn it into three ANDs before OR, only the AND next to OR is
      removed, and the remaining two ANDs collapse into one. */
  lemma AndOrKept(w: string, v: string)
    requires Word(w) && Word(v)
    ensures Tokens(w + " AND OR " + v) == [w, "AND", "OR", v]
    ensures Tokens(w + " AND OR " + v) != Tokens(w + " OR " + v)
  {
    AndOrRewrite(w, v);
    TokensAndOr(w + " AND OR " + v, w, v);
    OrKept(w, v);
  }

  // Words that hold an operator's letters.

  lemma OrWordShapes(w: string, x: string)
    ensures w + " OR" + x == w + " " + ("OR" + x)
    ensures w + " AND " + ("OR" + x) == (w + " ") + ("AND OR" + x)
    ensures (w + " ") + ("OR" + x) == w + " " + ("OR" + x)
  {
  }

  /** The replacements do not look at word boundaries, so a second word
      that starts with "OR" swallows the AND its space stands for: the
      space becomes " AND ", and "AND OR" then matches the AND and the
      start of the word. "EGFR ORF1" splits into just "EGFR" and "ORF1". */
  lemma OrWordLosesAnd(w: string, x: string)
    requires Word(w) && Word(x)
    ensures Tokens(w + " OR" + x) == [w, "OR" + x]
    ensures Tokens("EGFR ORF1") == ["EGFR", "ORF1"]
  {
    OrWordSplit(w, x);
    var e, f := "EGFR", "F1";
    ExampleWords(e, f);
    OrWordSplit(e, f);
  }

  lemma ExampleWords(e: string, f: string)
    requires e == "EGFR" && f == "F1"
    ensures Word(e) && Word(f) && e + " OR" + f == "EGFR ORF1" && "OR" + f == "ORF1"
  {
  }

  lemma OrWordSplit(w: string, x: string)
    requires Word(w) && Word(x)
    ensures Tokens(w + " OR" + x) == [w, "OR" + x]
  {
    WordFacts(w);
    WordFacts(x);
    var u := "OR" + x;
    var s := w + " " + u;
    var t := w + " AND " + u;
    OrWordShapes(w, x);
    SpacedOne(w, u);
    NotIn('+', w, " AND ", u);
    ReplaceAllMissing(t, " + ", " AND ", 1);
    ReplaceAllPast(w + " ", "AND OR" + x, "AND OR", "OR");
    ReplaceAllHit(x, "AND OR", "OR");
    ReplaceAllMissing(x, "AND OR", "OR", 0);
    NotIn('A', w, " ", u);
    ReplaceAllMissing(s, "OR AND", "OR", 3);
    CollapsePlain(s);
    NotIn('(', w, " ", u);
    NotIn(')', w, " ", u);
    NoParens(s);
    RewriteSteps(s, t, t, s, s, s, s, s);
    JoinCons(w, [u], " ");
    assert [w] + [u] == [w, u];
    TokensOfRewrite(s, [w, u]);
  }

  // ------------------------------------------------------------ shunting yard

  /** `ISearchNode`: a search term (`v` the term, `op` "search") or an
      operator (`v` null). */
  datatype Node = Node(v: Option<string>, op: string)

  function OpNode(o: string): Node {
    Node(None, o)
  }

  function Top(st: seq<string>): string
    requires |st| > 0
  {
    st[|st| - 1]
  }

  /** `opStack.at(-1)`. */
  function Peek(st: seq<string>): Option<string> {
    if |st| == 0 then None else Some(st[|st| - 1])
  }

  /** `opStack.pop() ?? d`: the top and the rest, or d when empty. */
  function PopOr(st: seq<string>, d: string): (string, seq<string>) {
    if |st| == 0 then (d, st) else (st[|st| - 1], st[..|st| - 1])
  }

  /** Pop to the output every operator that binds before o1. */
  function PopWhile(o1: string, out: seq<Node>, st: seq<string>): (seq<Node>, seq<string>)
    decreases |st|
  {
    if |st| > 0 && PopsBefore(Top(st), o1) then PopWhile(o1, out + [OpNode(Top(st))], st[..|st| - 1])
    else (out, st)
  }

  /** Pop to the output everything above the nearest open parenthesis. */
  function PopToOpen(out: seq<Node>, st: seq<string>): (r: (seq<Node>, seq<string>))
    requires "(" in st
    ensures "(" in r.1 && Top(r.1) == "("
    decreases |st|
  {
    if Top(st) == "(" then (out, st)
    else
      assert "(" in st[..|st| - 1] by {
        var k :| 0 <= k < |st| && st[k] == "(";
        assert st[..|st| - 1][k] == "(";
      }
      PopToOpen(out + [OpNode(Top(st))], st[..|st| - 1])
  }

  /** The final loop: pop everything left to the output. */
  function Flush(out: seq<Node>, st: seq<string>): seq<Node>
    decreases |st|
  {
    if |st| == 0 then out else Flush(out + [OpNode(Top(st))], st[..|st| - 1])
  }

  /** Every `)` closes a `(` seen before it and not yet closed. */
  predicate Balanced(tokens: seq<string>) {
    forall k :: 0 <= k < |tokens| ==> ClosesOpen(tokens, k)
  }

  /** The token at k is not a `)`, or a `(` before it is still open. */
  predicate ClosesOpen(tokens: seq<string>, k: nat)
    requires k < |tokens|
  {
    tokens[k] == ")" ==> Opens(tokens[..k]) > 0
  }

  /** The number of `(` minus the number of `)`. */
  function Opens(tokens: seq<string>): int {
    if tokens == [] then 0
    else
      var t := tokens[|tokens| - 1];
      Opens(tokens[..|tokens| - 1]) + (if t == "(" then 1 else if t == ")" then -1 else 0)
  }

  lemma BalancedPrefix(tokens: seq<string>, i: nat)
    requires Balanced(tokens) && i <= |tokens|
    ensures Balanced(tokens[..i])
  {
    forall k | 0 <= k < i ensures ClosesOpen(tokens[..i], k) {
      assert tokens[..i][..k] == tokens[..k];
      assert ClosesOpen(tokens, k);
    }
  }

  /** One token of the `for` loop. */
  function StepToken(t: string, out: seq<Node>, st: seq<string>): (seq<Node>, seq<string>)
    requires t == ")" ==> "(" in st
  {
    if IsOp(t) then
      var p := PopWhile(t, out, st);
      (p.0, p.1 + [t])
    else if t == "(" then (out, st + [t])
    else if t == ")" then
      var p := PopToOpen(out, st);
      (p.0, p.1[..|p.1| - 1])
    else (out + [Node(Some(t), "search")], st)
  }

  /** The output and the operator stack after the `for` loop over tokens. */
  function Run(tokens: seq<string>): (r: (seq<Node>, seq<string>))
    requires Balanced(tokens)
    ensures Count(r.1, "(") == Opens(tokens)
  {
    if tokens == [] then ([], [])
    else
      var n := |tokens| - 1;
      BalancedPrefix(tokens, n);
      var p := Run(tokens[..n]);
      var t := tokens[n];
      assert ClosesOpen(tokens, n);
      assert t == ")" ==> Count(p.1, "(") > 0;
      var r := StepToken(t, p.0, p.1);
      StepCount(t, p.0, p.1);
      r
  }

  /** The postfix output of `toRPN` for the given tokens. */
  function RPN(tokens: seq<string>): seq<Node>
    requires Balanced(tokens)
  {
    var p := Run(tokens);
    Flush(p.0, p.1)
  }

  lemma {:induction false} PopWhileCount(o1: string, out: seq<Node>, st: seq<string>)
    ensures Count(PopWhile(o1, out, st).1, "(") == Count(st, "(")
    decreases |st|
  {
    if |st| > 0 && PopsBefore(Top(st), o1) {
      PopWhileCount(o1, out + [OpNode(Top(st))], st[..|st| - 1]);
    }
  }

  lemma {:induction false} PopToOpenCount(out: seq<Node>, st: seq<string>)
    requires "(" in st
    ensures Count(PopToOpen(out, st).1, "(") == Count(st, "(")
    decreases |st|
  {
    if Top(st) != "(" {
      assert "(" in st[..|st| - 1] by {
        var k :| 0 <= k < |st| && st[k] == "(";
        assert st[..|st| - 1][k] == "(";
      }
      PopToOpenCount(out + [OpNode(Top(st))], st[..|st| - 1]);
    }
  }

  lemma StepCount(t: string, out: seq<Node>, st: seq<string>)
    requires t == ")" ==> "(" in st
    ensures Count(StepToken(t, out, st).1, "(") ==
            Count(st, "(") + (if t == "(" then 1 else 0) - (if t == ")" then 1 else 0)
  {
    if IsOp(t) {
      OpCount(t, out, st);
    } else if t == "(" {
      PushCount(st, t);
    } else if t == ")" {
      CloseCount(out, st);
    }
  }

  lemma OpCount(t: string, out: seq<Node>, st: seq<string>)
    requires IsOp(t)
    ensures Count(StepToken(t, out, st).1, "(") == Count(st, "(")
  {
    PopWhileCount(t, out, st);
    PushCount(PopWhile(t, out, st).1, t);
  }

  lemma CloseCount(out: seq<Node>, st: seq<string>)
    requires "(" in st
    ensures Count(StepToken(")", out, st).1, "(") == Count(st, "(") - 1
  {
    PopToOpenCount(out, st);
    PopOpenCount(PopToOpen(out, st).1);
  }

  /** Pushing a token adds one to the count of `(` exactly when it is one. */
  lemma PushCount(st: seq<string>, t: string)
    ensures Count(st + [t], "(") == Count(st, "(") + (if t == "(" then 1 else 0)
  {
    assert (st + [t])[..|st|] == st;
  }

  /** Popping a `(` from the top takes one from the count. */
  lemma PopOpenCount(st: seq<string>)
    requires |st| > 0 && Top(st) == "("
    ensures Count(st[..|st| - 1], "(") == Count(st, "(") - 1
  {
    assert st == st[..|st| - 1] + [Top(st)];
  }

  /** The loop over tokens[..i + 1] is one more step after tokens[..i]. */
  lemma RunSnoc(tokens: seq<string>, i: nat)
    requires Balanced(tokens) && i < |tokens|
    ensures Balanced(tokens[..i]) && Balanced(tokens[..i + 1])
    ensures tokens[i] == ")" ==> "(" in Run(tokens[..i]).1
    ensures Run(tokens[..i + 1]) == StepToken(tokens[i], Run(tokens[..i]).0, Run(tokens[..i]).1)
  {
    BalancedPrefix(tokens, i + 1);
    BalancedPrefix(tokens, i);
    assert tokens[..i + 1][..i] == tokens[..i];
    assert ClosesOpen(tokens, i);
  }

  /** The `while` loop of the AND/OR case: pop the operators that bind
      before o1. */
  method PopOperators(o1: string, out0: seq<Node>, st0: seq<string>)
    returns (output: seq<Node>, opStack: seq<string>)
    ensures (output, opStack) == PopWhile(o1, out0, st0)
  {
    output, opStack := out0, st0;
    var o2 := Peek(opStack);
    while o2.Some? && PopsBefore(o2.value, o1)
      invariant o2 == Peek(opStack)
      invariant PopWhile(o1, output, opStack) == PopWhile(o1, out0, st0)
      decreases |opStack|
    {
      var p := PopOr(opStack, "AND");
      output := output + [OpNode(p.0)];
      opStack := p.1;
      o2 := Peek(opStack);
    }
  }

  /** The `while` loop of the `)` case: pop down to the open parenthesis. */
  method PopToParen(out0: seq<Node>, st0: seq<string>)
    returns (output: seq<Node>, opStack: seq<string>)
    requires "(" in st0
    ensures (output, opStack) == PopToOpen(out0, st0)
  {
    output, opStack := out0, st0;
    var topOfOpStack := Peek(opStack);
    while topOfOpStack != Some("(")
      invariant topOfOpStack == Peek(opStack)
      invariant "(" in opStack
      invariant PopToOpen(output, opStack) == PopToOpen(out0, st0)
      decreases |opStack|
    {
      assert "(" in opStack[..|opStack| - 1] by {
        var k :| 0 <= k < |opStack| && opStack[k] == "(";
        assert opStack[..|opStack| - 1][k] == "(";
      }
      var p := PopOr(opStack, "AND");
      output := output + [OpNode(p.0)];
      opStack := p.1;
      topOfOpStack := Peek(opStack);
    }
  }

  /** The final `while` loop: pop everything left. */
  method FlushStack(out0: seq<Node>, st0: seq<string>) returns (output: seq<Node>)
    ensures output == Flush(out0, st0)
  {
    output := out0;
    var opStack := st0;
    while |opStack| != 0
      invariant Flush(output, opStack) == Flush(out0, st0)
      decreases |opStack|
    {
      var p := PopOr(opStack, "AND");
      output := output + [OpNode(p.0)];
      opStack := p.1;
    }
  }

  /** The `for` loop of `toRPN` over the tokens. */
  method RunTokens(tokens: seq<string>) returns (output: seq<Node>, opStack: seq<string>)
    requires Balanced(tokens)
    ensures (output, opStack) == Run(tokens)
  {
    opStack := [];
    output := [];
    for i := 0 to |tokens|
      invariant Balanced(tokens[..i])
      invariant (output, opStack) == Run(tokens[..i])
    {
      RunSnoc(tokens, i);
      var token := tokens[i];
      if token == "AND" || token == "OR" {
        output, opStack := PopOperators(token, output, opStack);
        opStack := opStack + [token];
      } else if token == "(" {
        opStack := opStack + [token];
      } else if token == ")" {
        output, opStack := PopToParen(output, opStack);
        var p := PopOr(opStack, "AND");
        opStack := p.1;
      } else {
        output := output + [Node(Some(token), "search")];
      }
    }
    assert tokens[..|tokens|] == tokens;
  }

  /** `toRPN`: rewrite and split the query, run the loop over the tokens,
      then pop what is left on the stack. */
  method ToRPN(input: string) returns (output: seq<Node>)
    requires Balanced(Tokens(input))
    ensures output == RPN(Tokens(input))
  {
    var tokens := Tokens(input);
    var out, opStack := RunTokens(tokens);
    output := FlushStack(out, opStack);
  }

  // ------------------------------------------------------------ properties

  /** The search terms of an output, in order. */
  function Operands(out: seq<Node>): seq<string> {
    if out == [] then []
    else Operands(out[..|out| - 1]) + (if out[|out| - 1].v.Some? then [out[|out| - 1].v.value] else [])
  }

  /** The term tokens of the input, in order. */
  function TermTokens(tokens: seq<string>): seq<string> {
    if tokens == [] then []
    else
      var t := tokens[|tokens| - 1];
      TermTokens(tokens[..|tokens| - 1]) + (if IsOp(t) || t == "(" || t == ")" then [] else [t])
  }

  /** The number of operator nodes in an output. */
  function OpNodes(out: seq<Node>): nat {
    if out == [] then 0 else OpNodes(out[..|out| - 1]) + (if out[|out| - 1].v.None? then 1 else 0)
  }

  /** The number of operators (not parentheses) on a stack. */
  function StackOps(st: seq<string>): nat {
    if st == [] then 0 else StackOps(st[..|st| - 1]) + (if st[|st| - 1] == "(" then 0 else 1)
  }

  /** The number of AND/OR tokens. */
  function OpTokens(tokens: seq<string>): nat {
    if tokens == [] then 0 else OpTokens(tokens[..|tokens| - 1]) + (if IsOp(tokens[|tokens| - 1]) then 1 else 0)
  }

  /** Output nodes are terms or AND/OR; the stack holds AND/OR and `(`. */
  predicate Good(out: seq<Node>, st: seq<string>) {
    (forall k :: 0 <= k < |out| ==>
       (out[k].v.Some? && out[k].op == "search") || (out[k].v.None? && IsOp(out[k].op))) &&
    (forall k :: 0 <= k < |st| ==> IsOp(st[k]) || st[k] == "(")
  }

  /** The stack height of evaluating the output as postfix: a term pushes
      one value, an operator takes two and pushes one; -1 once the stack
      runs short. */
  function Depth(out: seq<Node>): int {
    if out == [] then 0
    else
      var h := Depth(out[..|out| - 1]);
      if h < 0 then -1
      else if out[|out| - 1].v.Some? then h + 1
      else if h >= 2 then h - 1
      else -1
  }

  /** What moving the top operator to the output keeps. */
  lemma PopOne(out: seq<Node>, st: seq<string>, a: nat)
    requires |st| > 0 && Top(st) != "(" && Good(out, st)
    ensures var o, s := out + [OpNode(Top(st))], st[..|st| - 1];
      Good(o, s) && Operands(o) == Operands(out) &&
      OpNodes(o) + StackOps(s) == OpNodes(out) + StackOps(st) &&
      Count(s, "(") == Count(st, "(") &&
      (Depth(out) == StackOps(st) + 1 ==> Depth(o) == StackOps(s) + 1)
  {
    var o := out + [OpNode(Top(st))];
    assert o[..|out|] == out;
  }

  lemma {:induction false} PopWhileKeeps(o1: string, out: seq<Node>, st: seq<string>)
    requires Good(out, st)
    ensures var p := PopWhile(o1, out, st);
      Good(p.0, p.1) && Operands(p.0) == Operands(out) &&
      OpNodes(p.0) + StackOps(p.1) == OpNodes(out) + StackOps(st) &&
      (Depth(out) == StackOps(st) + 1 ==> Depth(p.0) == StackOps(p.1) + 1)
    decreases |st|
  {
    if |st| > 0 && PopsBefore(Top(st), o1) {
      PopOne(out, st, 0);
      PopWhileKeeps(o1, out + [OpNode(Top(st))], st[..|st| - 1]);
    }
  }

  lemma {:induction false} PopToOpenKeeps(out: seq<Node>, st: seq<string>)
    requires "(" in st && Good(out, st)
    ensures var p := PopToOpen(out, st);
      Good(p.0, p.1) && Operands(p.0) == Operands(out) &&
      OpNodes(p.0) + StackOps(p.1) == OpNodes(out) + StackOps(st) &&
      (Depth(out) == StackOps(st) + 1 ==> Depth(p.0) == StackOps(p.1) + 1)
    decreases |st|
  {
    if Top(st) != "(" {
      assert "(" in st[..|st| - 1] by {
        var k :| 0 <= k < |st| && st[k] == "(";
        assert st[..|st| - 1][k] == "(";
      }
      PopOne(out, st, 0);
      PopToOpenKeeps(out + [OpNode(Top(st))], st[..|st| - 1]);
    }
  }

  lemma {:induction false} FlushKeeps(out: seq<Node>, st: seq<string>)
    requires Good(out, st) && Count(st, "(") == 0
    ensures var o := Flush(out, st);
      Good(o, []) && Operands(o) == Operands(out) &&
      OpNodes(o) == OpNodes(out) + StackOps(st) &&
      (Depth(out) == StackOps(st) + 1 ==> Depth(o) == 1)
    decreases |st|
  {
    if |st| > 0 {
      assert Top(st) != "(" by {
        assert st == st[..|st| - 1] + [Top(st)];
        CountAppend(st[..|st| - 1], [Top(st)], "(");
      }
      PopOne(out, st, 0);
      FlushKeeps(out + [OpNode(Top(st))], st[..|st| - 1]);
    }
  }

  /** Whether the tokens read so far form a well-built query: terms and
      operators alternate, and `)` closes an open `(`. The state is whether
      a term was just completed, and how many parentheses are open. */
  function Scan(tokens: seq<string>): Option<(bool, nat)> {
    if tokens == [] then Some((false, 0))
    else
      match Scan(tokens[..|tokens| - 1])
      case None => None
      case Some(s) =>
        var (after, open) := s;
        var t := tokens[|tokens| - 1];
        if IsOp(t) then (if after then Some((false, open)) else None)
        else if t == "(" then (if !after then Some((false, open + 1)) else None)
        else if t == ")" then (if after && open > 0 then Some((true, open - 1)) else None)
        else if !after then Some((true, open))
        else None
  }

  /** A complete query: the scan ends after a term with no parenthesis
      open. */
  predicate WellFormed(tokens: seq<string>) {
    Scan(tokens) == Some((true, 0))
  }

  /** A well-built prefix is balanced, and its open count is the number of
      `(` minus the number of `)`. */
  lemma {:induction false} ScanBalanced(tokens: seq<string>)
    requires Scan(tokens).Some?
    ensures Balanced(tokens)
    ensures Scan(tokens).value.1 == Opens(tokens)
  {
    if tokens != [] {
      var n := |tokens| - 1;
      assert Scan(tokens[..n]).Some?;
      ScanBalanced(tokens[..n]);
      forall k | 0 <= k < |tokens| ensures ClosesOpen(tokens, k) {
        if k < n {
          assert tokens[..n][..k] == tokens[..k];
          assert ClosesOpen(tokens[..n], k);
        }
      }
    }
  }

  /** A term token: anything but AND, OR and the parentheses. */
  predicate IsTerm(t: string) {
    !IsOp(t) && t != "(" && t != ")"
  }

  /** What one token of the loop keeps. */
  lemma StepKeeps(t: string, out: seq<Node>, st: seq<string>)
    requires t == ")" ==> "(" in st
    requires Good(out, st)
    ensures var q := StepToken(t, out, st);
      Good(q.0, q.1) &&
      Operands(q.0) == Operands(out) + (if IsTerm(t) then [t] else []) &&
      OpNodes(q.0) + StackOps(q.1) == OpNodes(out) + StackOps(st) + (if IsOp(t) then 1 else 0)
  {
    if IsOp(t) {
      OpKeeps(t, out, st);
    } else if t == "(" {
      OpenKeeps(t, out, st);
    } else if t == ")" {
      CloseKeeps(t, out, st);
    } else {
      TermKeeps(t, out, st);
    }
  }

  lemma OpKeeps(t: string, out: seq<Node>, st: seq<string>)
    requires IsOp(t) && Good(out, st)
    ensures var q := StepToken(t, out, st);
      Good(q.0, q.1) && Operands(q.0) == Operands(out) &&
      OpNodes(q.0) + StackOps(q.1) == OpNodes(out) + StackOps(st) + 1 &&
      (Depth(out) == StackOps(st) + 1 ==> Depth(q.0) == StackOps(q.1))
  {
    PopWhileKeeps(t, out, st);
    var q := PopWhile(t, out, st);
    assert (q.1 + [t])[..|q.1|] == q.1;
  }

  lemma OpenKeeps(t: string, out: seq<Node>, st: seq<string>)
    requires t == "(" && Good(out, st)
    ensures var q := StepToken(t, out, st);
      Good(q.0, q.1) && q.0 == out && StackOps(q.1) == StackOps(st)
  {
    assert (st + [t])[..|st|] == st;
  }

  lemma CloseKeeps(t: string, out: seq<Node>, st: seq<string>)
    requires t == ")" && "(" in st && Good(out, st)
    ensures var q := StepToken(t, out, st);
      Good(q.0, q.1) && Operands(q.0) == Operands(out) &&
      OpNodes(q.0) + StackOps(q.1) == OpNodes(out) + StackOps(st) &&
      (Depth(out) == StackOps(st) + 1 ==> Depth(q.0) == StackOps(q.1) + 1)
  {
    PopToOpenKeeps(out, st);
    var q := PopToOpen(out, st);
    assert q.1 == q.1[..|q.1| - 1] + [Top(q.1)];
  }

  lemma TermKeeps(t: string, out: seq<Node>, st: seq<string>)
    requires IsTerm(t) && Good(out, st)
    ensures var q := StepToken(t, out, st);
      Good(q.0, q.1) && Operands(q.0) == Operands(out) + [t] &&
      OpNodes(q.0) == OpNodes(out) && q.1 == st &&
      (Depth(out) == StackOps(st) ==> Depth(q.0) == StackOps(st) + 1)
  {
    var o := out + [Node(Some(t), "search")];
    assert o[..|out|] == out;
  }

  /** How one accepted token moves the postfix stack height. */
  lemma StepDepth(t: string, out: seq<Node>, st: seq<string>, after: bool)
    requires t == ")" ==> "(" in st
    requires Good(out, st)
    requires Depth(out) == StackOps(st) + (if after then 1 else 0)
    requires (IsOp(t) || t == ")") ==> after
    requires (IsTerm(t) || t == "(") ==> !after
    ensures var q := StepToken(t, out, st);
      Depth(q.0) == StackOps(q.1) + (if IsOp(t) || t == "(" then 0 else 1)
  {
    var q := StepToken(t, out, st);
    if IsOp(t) {
      assert after && t != "(";
      OpKeeps(t, out, st);
      assert Depth(q.0) == StackOps(q.1);
    } else if t == "(" {
      assert !after;
      OpenKeeps(t, out, st);
      assert Depth(q.0) == StackOps(q.1);
    } else if t == ")" {
      assert after;
      CloseKeeps(t, out, st);
      assert Depth(q.0) == StackOps(q.1) + 1;
    } else {
      assert !after;
      TermKeeps(t, out, st);
      assert Depth(q.0) == StackOps(q.1) + 1;
    }
  }

  /** What the `for` loop keeps: the terms so far in order, and every
      operator token either output or on the stack. */
  lemma {:induction false} RunKeeps(tokens: seq<string>)
    requires Balanced(tokens)
    ensures var p := Run(tokens);
      Good(p.0, p.1) && Operands(p.0) == TermTokens(tokens) &&
      OpNodes(p.0) + StackOps(p.1) == OpTokens(tokens)
  {
    if tokens != [] {
      var n := |tokens| - 1;
      RunLast(tokens);
      RunKeeps(tokens[..n]);
      var p := Run(tokens[..n]);
      StepKeeps(tokens[n], p.0, p.1);
    }
  }

  /** For a well-built prefix, the postfix stack height equals the number
      of operators waiting, plus one when a term was just completed. */
  lemma {:induction false} RunDepth(tokens: seq<string>)
    requires Scan(tokens).Some?
    ensures Balanced(tokens)
    ensures Depth(Run(tokens).0) == StackOps(Run(tokens).1) + (if Scan(tokens).value.0 then 1 else 0)
  {
    ScanBalanced(tokens);
    if tokens != [] {
      var n := |tokens| - 1;
      ScanLast(tokens);
      RunDepth(tokens[..n]);
      RunKeeps(tokens[..n]);
      RunDepthStep(tokens, Scan(tokens[..n]).value.0);
    }
  }

  /** The stack height after one more accepted token. */
  lemma RunDepthStep(tokens: seq<string>, after: bool)
    requires Balanced(tokens) && tokens != []
    requires var t := tokens[|tokens| - 1];
      ((IsOp(t) || t == ")") ==> after) && ((IsTerm(t) || t == "(") ==> !after)
    requires Balanced(tokens[..|tokens| - 1])
    requires var p := Run(tokens[..|tokens| - 1]);
      Good(p.0, p.1) && Depth(p.0) == StackOps(p.1) + (if after then 1 else 0)
    ensures var t := tokens[|tokens| - 1];
      Depth(Run(tokens).0) == StackOps(Run(tokens).1) + (if IsOp(t) || t == "(" then 0 else 1)
  {
    RunLast(tokens);
    var p := Run(tokens[..|tokens| - 1]);
    var t := tokens[|tokens| - 1];
    var q := StepToken(t, p.0, p.1);
    StepDepth(t, p.0, p.1, after);
    assert Run(tokens) == q;
    assert Depth(q.0) == StackOps(q.1) + (if IsOp(t) || t == "(" then 0 else 1);
  }

  /** The loop over a non-empty list is one more step after its prefix. */
  lemma RunLast(tokens: seq<string>)
    requires Balanced(tokens) && tokens != []
    ensures Balanced(tokens[..|tokens| - 1])
    ensures var p := Run(tokens[..|tokens| - 1]);
      (tokens[|tokens| - 1] == ")" ==> "(" in p.1) &&
      Run(tokens) == StepToken(tokens[|tokens| - 1], p.0, p.1)
  {
    BalancedPrefix(tokens, |tokens| - 1);
    assert ClosesOpen(tokens, |tokens| - 1);
  }

  /** The scan state after a well-built non-empty prefix, given by its last
      token. */
  lemma ScanLast(tokens: seq<string>)
    requires Scan(tokens).Some? && tokens != []
    ensures var n := |tokens| - 1; var t := tokens[n];
      Scan(tokens[..n]).Some? &&
      var (after, open) := Scan(tokens[..n]).value;
      ((IsOp(t) || t == ")") ==> after) && ((IsTerm(t) || t == "(") ==> !after) &&
      Scan(tokens).value.0 == (IsTerm(t) || t == ")")
  {
  }

  lemma {:induction false} FlushOperands(out: seq<Node>, st: seq<string>)
    ensures Operands(Flush(out, st)) == Operands(out)
    decreases |st|
  {
    if |st| > 0 {
      var o := out + [OpNode(Top(st))];
      assert o[..|out|] == out;
      FlushOperands(o, st[..|st| - 1]);
    }
  }

  /** The terms appear in the output in input order. */
  lemma TermsInOrder(tokens: seq<string>)
    requires Balanced(tokens)
    ensures Operands(RPN(tokens)) == TermTokens(tokens)
  {
    RunKeeps(tokens);
    FlushOperands(Run(tokens).0, Run(tokens).1);
  }

  /** When every parenthesis is closed, the output holds no parenthesis:
      only terms and AND/OR, one operator node per AND/OR token. */
  lemma NoParensInOutput(tokens: seq<string>)
    requires Balanced(tokens) && Opens(tokens) == 0
    ensures forall k :: 0 <= k < |RPN(tokens)| ==>
              RPN(tokens)[k].op == "search" || RPN(tokens)[k].op == "AND" || RPN(tokens)[k].op == "OR"
    ensures OpNodes(RPN(tokens)) == OpTokens(tokens)
  {
    RunKeeps(tokens);
    FlushKeeps(Run(tokens).0, Run(tokens).1);
  }

  /** The final flush of a complete query leaves one value. */
  lemma FlushComplete(out: seq<Node>, st: seq<string>)
    requires Good(out, st) && Count(st, "(") == 0
    requires Depth(out) == StackOps(st) + 1
    ensures Depth(Flush(out, st)) == 1
  {
    FlushKeeps(out, st);
  }

  /** For a well-built query the output is valid postfix: evaluating it
      never runs short of operands and ends with exactly one value. */
  lemma ValidPostfix(tokens: seq<string>)
    requires WellFormed(tokens)
    ensures Balanced(tokens)
    ensures Depth(RPN(tokens)) == 1
  {
    ScanBalanced(tokens);
    RunDepth(tokens);
    RunKeeps(tokens);
    var p := Run(tokens);
    assert Count(p.1, "(") == 0;
    assert Depth(p.0) == StackOps(p.1) + 1;
    FlushComplete(p.0, p.1);
  }
}
