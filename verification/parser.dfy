/** `utilities.Parser`: the three-line configuration file — investor types, stock prices,
    initial portfolio — with comment lines starting with `#`. The file arrives as its
    sequence of lines; reading it from disk is outside the model. */
module Parser {
  import opened Results

  /** `Integer.MIN_VALUE` and `Integer.MAX_VALUE`. */
  const IntMin: int := -0x8000_0000
  const IntMax: int := 0x7fff_ffff

  predicate InIntRange(n: int) {
    IntMin <= n <= IntMax
  }

  /** What a successfully parsed file yields (the getters of `Parser`). */
  datatype Config = Config(
    randomCount: int,               // numberOfRandomInvestors
    smaCount: int,                  // numberOfSMAInvestors
    prices: map<string, int>,       // stockPrices
    cash: int,                      // initialCash
    portfolio: map<string, int>)    // initialPortfolio

  /** `getNumberOfInvestors`. */
  function InvestorCount(c: Config): int {
    c.randomCount + c.smaCount
  }

  // ---------------------------------------------------------------- String.split

  /** The pieces of `s` between occurrences of `sep`, empty ones included:
      always one more piece than there are separators. */
  function Pieces(s: string, sep: char): (r: seq<string>)
    ensures |r| >= 1
    ensures forall i :: 0 <= i < |r| ==> sep !in r[i]
    decreases |s|
  {
    if |s| == 0 then [""]
    else
      var rest := Pieces(s[1..], sep);
      if s[0] == sep then [""] + rest
      else [[s[0]] + rest[0]] + rest[1..]
  }

  /** The pieces glued back together with one `sep` between neighbours. */
  function Join(ps: seq<string>, sep: char): string
    decreases |ps|
  {
    if |ps| == 0 then ""
    else if |ps| == 1 then ps[0]
    else ps[0] + [sep] + Join(ps[1..], sep)
  }

  /** `ps` without its trailing empty strings. */
  function DropTrailingEmpty(ps: seq<string>): (r: seq<string>)
    ensures |r| <= |ps| && r == ps[..|r|]
    ensures |r| == 0 || r[|r| - 1] != ""
    ensures forall i :: |r| <= i < |ps| ==> ps[i] == ""
    decreases |ps|
  {
    if |ps| == 0 || ps[|ps| - 1] != "" then ps
    else DropTrailingEmpty(ps[..|ps| - 1])
  }

  /** `s.split(sep)` for a one-character pattern: with no occurrence the whole string
      (even an empty one) is the only piece; otherwise the pieces between occurrences,
      trailing empty pieces removed, so the result may be empty. */
  function Split(s: string, sep: char): (r: seq<string>)
    ensures forall i :: 0 <= i < |r| ==> sep !in r[i]
    ensures sep !in s ==> r == [s]
    ensures sep in s ==> r == DropTrailingEmpty(Pieces(s, sep))
  {
    if sep in s then DropTrailingEmpty(Pieces(s, sep)) else [s]
  }

  /** The pieces are all empty exactly when the string is nothing but separators. */
  lemma {:induction false} PiecesAllEmpty(s: string, sep: char)
    ensures (forall i :: 0 <= i < |Pieces(s, sep)| ==> Pieces(s, sep)[i] == "")
            <==> (forall i :: 0 <= i < |s| ==> s[i] == sep)
    decreases |s|
  {
    if |s| > 0 {
      PiecesAllEmpty(s[1..], sep);
      var rest := Pieces(s[1..], sep);
      if s[0] == sep {
        var ps := Pieces(s, sep);
        assert ps == [""] + rest;
        assert forall i :: 0 <= i < |rest| ==> ps[i + 1] == rest[i];
        assert forall i :: 0 <= i < |s| - 1 ==> s[1..][i] == s[i + 1];
      } else {
        assert Pieces(s, sep)[0] == [s[0]] + rest[0];
      }
    }
  }

  /** `split` leaves no piece exactly when the string is non-empty and nothing but separators. */
  lemma SplitEmpty(s: string, sep: char)
    ensures |Split(s, sep)| == 0 <==> |s| > 0 && forall i :: 0 <= i < |s| ==> s[i] == sep
  {
    PiecesAllEmpty(s, sep);
    var ps := Pieces(s, sep);
    if |s| > 0 && forall i :: 0 <= i < |s| ==> s[i] == sep {
      assert s[0] == sep;
    }
  }

  /** Gluing the pieces back gives the original string. */
  lemma {:induction false} JoinPieces(s: string, sep: char)
    ensures Join(Pieces(s, sep), sep) == s
    decreases |s|
  {
    if |s| > 0 {
      var rest := Pieces(s[1..], sep);
      JoinPieces(s[1..], sep);
      if s[0] == sep {
        assert ([""] + rest)[1..] == rest;
      } else {
        var ps := [[s[0]] + rest[0]] + rest[1..];
        if |rest| == 1 {
          assert ps == [[s[0]] + rest[0]];
        } else {
          assert ps[1..] == rest[1..];
          assert Join(rest, sep) == rest[0] + [sep] + Join(rest[1..], sep);
        }
      }
    }
  }

  /** Cutting a joined list of separator-free pieces gives the pieces back. */
  lemma {:induction false} PiecesJoin(ps: seq<string>, sep: char)
    requires |ps| >= 1
    requires forall i :: 0 <= i < |ps| ==> sep !in ps[i]
    ensures Pieces(Join(ps, sep), sep) == ps
    decreases |ps|
  {
    if |ps| == 1 {
      PiecesOfPlain(ps[0], sep);
    } else {
      PiecesJoin(ps[1..], sep);
      PiecesAfterPlain(ps[0], Join(ps[1..], sep), sep);
      assert ps == [ps[0]] + ps[1..];
    }
  }

  /** A string without the separator is a single piece. */
  lemma {:induction false} PiecesOfPlain(p: string, sep: char)
    requires sep !in p
    ensures Pieces(p, sep) == [p]
    decreases |p|
  {
    if |p| > 0 {
      assert sep !in p[1..] by { assert forall i :: 0 <= i < |p| - 1 ==> p[1..][i] == p[i + 1]; }
      PiecesOfPlain(p[1..], sep);
      assert [p[0]] + p[1..] == p;
    }
  }

  /** A separator-free head followed by the separator is one piece, then the rest's pieces. */
  lemma {:induction false} PiecesAfterPlain(p: string, t: string, sep: char)
    requires sep !in p
    ensures Pieces(p + [sep] + t, sep) == [p] + Pieces(t, sep)
    decreases |p|
  {
    var s := p + [sep] + t;
    if |p| == 0 {
      assert s == [sep] + t;
      assert s[1..] == t;
    } else {
      assert sep !in p[1..] by { assert forall i :: 0 <= i < |p| - 1 ==> p[1..][i] == p[i + 1]; }
      PiecesAfterPlain(p[1..], t, sep);
      assert s[1..] == p[1..] + [sep] + t;
      assert [p[0]] + p[1..] == p;
    }
  }

  /** A joined list of two or more pieces contains the separator. */
  lemma JoinHasSeparator(ps: seq<string>, sep: char)
    requires |ps| >= 2
    ensures sep in Join(ps, sep)
  {
    assert Join(ps, sep)[|ps[0]|] == sep;
  }

  /** `split` undoes a join of separator-free pieces whose last piece is not empty. */
  lemma SplitJoin(ps: seq<string>, sep: char)
    requires |ps| >= 1 && ps[|ps| - 1] != ""
    requires forall i :: 0 <= i < |ps| ==> sep !in ps[i]
    ensures Split(Join(ps, sep), sep) == ps
  {
    if |ps| >= 2 {
      JoinHasSeparator(ps, sep);
      PiecesJoin(ps, sep);
    }
  }

  // ---------------------------------------------------------------- Integer.parseInt

  predicate IsDigit(c: char) {
    '0' <= c <= '9'
  }

  predicate AllDigits(s: string) {
    forall i :: 0 <= i < |s| ==> IsDigit(s[i])
  }

  /** The decimal value of a string of digits, leading zeros allowed. */
  function DigitsValue(s: string): nat
    requires AllDigits(s)
    decreases |s|
  {
    if |s| == 0 then 0
    else DigitsValue(s[..|s| - 1]) * 10 + (s[|s| - 1] as int - '0' as int)
  }

  /** `Integer.parseInt(s)`: an optional `+` or `-`, then at least one digit, and a value
      that fits in 32 bits; anything else is a NumberFormatException. */
  function ParseInt(s: string): (r: Result<int>)
    ensures r.Success? ==> InIntRange(r.value)
    ensures r.Failure? ==> r.error == NumberFormat
    ensures s == "" || s == "-" || s == "+" ==> r.Failure?
    ensures AllDigits(s) && s != "" && DigitsValue(s) <= IntMax ==> r == Success(DigitsValue(s))
  {
    var signed := |s| > 0 && (s[0] == '-' || s[0] == '+');
    var digits := if signed then s[1..] else s;
    if |digits| == 0 || !AllDigits(digits) then Failure(NumberFormat)
    else
      var magnitude: int := DigitsValue(digits);
      var v := if signed && s[0] == '-' then -magnitude else magnitude;
      if InIntRange(v) then Success(v) else Failure(NumberFormat)
  }

  /** The decimal digits of a natural number, most significant first. */
  function Digits(n: nat): (r: string)
    ensures |r| >= 1 && AllDigits(r)
    decreases n
  {
    if n < 10 then [('0' as int + n) as char]
    else Digits(n / 10) + [('0' as int + n % 10) as char]
  }

  /** `Integer.toString(n)`: a minus sign for negative numbers, then the digits. */
  function Show(n: int): (r: string)
    ensures |r| >= 1 && ' ' !in r && ':' !in r && r[0] != '#'
  {
    if n < 0 then "-" + Digits(-n) else Digits(n)
  }

  /** The digits of `n` have the value `n`. */
  lemma {:induction false} DigitsValueOfDigits(n: nat)
    ensures DigitsValue(Digits(n)) == n
    decreases n
  {
    if n >= 10 {
      DigitsValueOfDigits(n / 10);
      var d := Digits(n);
      assert d[..|d| - 1] == Digits(n / 10);
    }
  }

  /** `parseInt` reads back every 32-bit number `toString` writes. */
  lemma ParseShow(n: int)
    requires InIntRange(n)
    ensures ParseInt(Show(n)) == Success(n)
  {
    if n < 0 {
      var d := Digits(-n);
      DigitsValueOfDigits(-n);
      assert Show(n) == "-" + d;
      assert ("-" + d)[1..] == d;
      ParseSigned(d, -n);
    } else {
      var d := Digits(n);
      DigitsValueOfDigits(n);
      assert IsDigit(d[0]);
      ParseUnsigned(d, n);
    }
  }

  /** `-` followed by digits of value `m` parses as `-m` when that fits. */
  lemma ParseSigned(d: string, m: nat)
    requires |d| >= 1 && AllDigits(d) && DigitsValue(d) == m && InIntRange(0 - m)
    ensures ParseInt("-" + d) == Success(0 - m)
  {
    var s := "-" + d;
    assert s[0] == '-' && s[1..] == d;
  }

  /** Digits of value `m` parse as `m` when that fits. */
  lemma ParseUnsigned(d: string, m: nat)
    requires |d| >= 1 && AllDigits(d) && DigitsValue(d) == m && InIntRange(m)
    ensures ParseInt(d) == Success(m)
  {
    assert IsDigit(d[0]);
  }

  // ---------------------------------------------------------------- the reader

  /** Which line the reader expects next: the types line, the prices line, or a portfolio line
      (every later non-comment line is read as a portfolio line and replaces the previous one). */
  datatype Stage = ExpectTypes | ExpectPrices | ExpectPortfolio

  /** The parser's fields while reading; `None` is a map that was never assigned. */
  datatype Reading = Reading(
    stage: Stage,
    randomCount: int,
    smaCount: int,
    prices: Option<map<string, int>>,
    cash: int,
    portfolio: Option<map<string, int>>)

  function Initial(): Reading {
    Reading(ExpectTypes, 0, 0, None, 0, None)
  }

  /** `line.startsWith("#")`. */
  predicate IsComment(line: string) {
    |line| > 0 && line[0] == '#'
  }

  /** The investor-types loop: `R` and `S` are counted, any other token is rejected. */
  function CountTypes(tokens: seq<string>): (r: Result<(int, int)>)
    ensures r.Success? <==> forall i :: 0 <= i < |tokens| ==> tokens[i] == "R" || tokens[i] == "S"
    ensures r.Failure? ==> r.error == IllegalArgument
    ensures r.Success? ==> r.value == (multiset(tokens)["R"], multiset(tokens)["S"])
    decreases |tokens|
  {
    if |tokens| == 0 then Success((0, 0))
    else if tokens[0] != "R" && tokens[0] != "S" then Failure(IllegalArgument)
    else
      var counts :- CountTypes(tokens[1..]);
      assert tokens == [tokens[0]] + tokens[1..];
      if tokens[0] == "R" then Success((counts.0 + 1, counts.1)) else Success((counts.0, counts.1 + 1))
  }

  /** The identifier and number of an `identifier:number` token; `None` when the token does
      not split at `:` into exactly two parts or its number does not parse. */
  function Pair(t: string): Option<(string, int)> {
    var parts := Split(t, ':');
    if |parts| == 2 && ParseInt(parts[1]).Success? then Some((parts[0], ParseInt(parts[1]).value)) else None
  }

  /** The token is a well-formed pair for identifier `k`. */
  predicate Names(t: string, k: string) {
    Pair(t).Some? && Pair(t).value.0 == k
  }

  /** Every token is a well-formed pair. */
  predicate AllPairs(tokens: seq<string>) {
    forall i :: 0 <= i < |tokens| ==> Pair(tokens[i]).Some?
  }

  /** What reading `tokens` into `m` leaves under `k`, found from the back: the number of the
      last token naming `k`, else what `m` held, else nothing. */
  function LastNamed(tokens: seq<string>, k: string, m: map<string, int>): Option<int>
    decreases |tokens|
  {
    if |tokens| == 0 then (if k in m then Some(m[k]) else None)
    else if Names(tokens[|tokens| - 1], k) then Some(Pair(tokens[|tokens| - 1]).value.1)
    else LastNamed(tokens[..|tokens| - 1], k, m)
  }

  /** Storing the first pair before reading the rest leaves the same last entries. */
  lemma {:induction false} LastNamedFront(tokens: seq<string>, k: string, m: map<string, int>)
    requires |tokens| > 0 && Pair(tokens[0]).Some?
    ensures LastNamed(tokens, k, m) == LastNamed(tokens[1..], k, m[Pair(tokens[0]).value.0 := Pair(tokens[0]).value.1])
    decreases |tokens|
  {
    var n := |tokens|;
    if n == 1 {
      assert tokens[..0] == [] && tokens[1..] == [];
    } else {
      assert tokens[..n - 1][0] == tokens[0];
      assert tokens[..n - 1][1..] == tokens[1..][..n - 2];
      assert tokens[1..][n - 2] == tokens[n - 1];
      LastNamedFront(tokens[..n - 1], k, m);
    }
  }

  /** The first step of the pair loop, for every identifier and every token at once. */
  lemma PairsFront(tokens: seq<string>, m: map<string, int>)
    requires |tokens| > 0 && Pair(tokens[0]).Some?
    ensures var p := Pair(tokens[0]).value;
      forall k :: LastNamed(tokens, k, m) == LastNamed(tokens[1..], k, m[p.0 := p.1])
    ensures forall k :: (exists i :: 0 <= i < |tokens| && Names(tokens[i], k))
                        <==> Names(tokens[0], k) || exists i :: 0 <= i < |tokens[1..]| && Names(tokens[1..][i], k)
    ensures AllPairs(tokens) <==> AllPairs(tokens[1..])
  {
    forall k
      ensures LastNamed(tokens, k, m) == LastNamed(tokens[1..], k, m[Pair(tokens[0]).value.0 := Pair(tokens[0]).value.1])
    {
      LastNamedFront(tokens, k, m);
    }
    assert forall i :: 0 <= i < |tokens| - 1 ==> tokens[1..][i] == tokens[i + 1];
  }

  /** The `identifier:number` loop shared by the price and portfolio lines: it succeeds exactly
      when every token is a pair; the map gains every identifier named, and each identifier
      keeps the number of the last token naming it. A token that does not split into two parts
      is an `IllegalArgumentException`, a number that does not parse a `NumberFormatException`. */
  function ReadPairs(tokens: seq<string>, m: map<string, int>): (r: Result<map<string, int>>)
    ensures r.Success? <==> AllPairs(tokens)
    ensures r.Failure? ==> r.error == IllegalArgument || r.error == NumberFormat
    ensures r.Success? ==> m.Keys <= r.value.Keys
    ensures r.Success? ==> forall k :: k in r.value <==> k in m || exists i :: 0 <= i < |tokens| && Names(tokens[i], k)
    ensures r.Success? ==> forall k :: LastNamed(tokens, k, m) == (if k in r.value then Some(r.value[k]) else None)
    ensures r.Success? ==> forall k :: k in r.value ==> InIntRange(r.value[k]) || (k in m && r.value[k] == m[k])
    decreases |tokens|
  {
    if |tokens| == 0 then Success(m)
    else
      var parts := Split(tokens[0], ':');
      if |parts| != 2 then Failure(IllegalArgument)
      else
        var v :- ParseInt(parts[1]);
        PairsFront(tokens, m);
        ReadPairs(tokens[1..], m[parts[0] := v])
  }

  /** The line is not empty and holds nothing but spaces, so `split(" ")` leaves no token. */
  predicate Blank(line: string) {
    |line| > 0 && forall i :: 0 <= i < |line| ==> line[i] == ' '
  }

  /** One line of the constructor's loop: a comment is skipped; the types line sets the two
      counts, the prices line the price map, and every later line the cash and portfolio. */
  function ReadLine(st: Reading, line: string): (r: Result<Reading>)
    ensures IsComment(line) ==> r == Success(st)
    ensures r.Success? && !IsComment(line) ==>
      r.value.stage == (if st.stage == ExpectTypes then ExpectPrices else ExpectPortfolio)
    ensures r.Success? && !IsComment(line) && st.stage == ExpectPortfolio ==>
      r.value.prices == st.prices && r.value.portfolio.Some?
    ensures !IsComment(line) && st.stage == ExpectTypes ==>
      var tokens := Split(line, ' ');
      && (r.Success? <==> forall i :: 0 <= i < |tokens| ==> tokens[i] == "R" || tokens[i] == "S")
      && (r.Success? ==> r.value == st.(stage := ExpectPrices, randomCount := multiset(tokens)["R"],
                                        smaCount := multiset(tokens)["S"]))
    ensures !IsComment(line) && st.stage == ExpectPrices ==>
      var tokens := Split(line, ' ');
      && (r.Success? <==> AllPairs(tokens))
      && (r.Success? ==> r.value == st.(stage := ExpectPortfolio, prices := Some(ReadPairs(tokens, map[]).value)))
    ensures !IsComment(line) && st.stage == ExpectPortfolio && Blank(line) ==> r == Failure(IndexOutOfBounds)
    ensures !IsComment(line) && st.stage == ExpectPortfolio && !Blank(line) ==>
      var tokens := Split(line, ' ');
      && |tokens| > 0
      && (r.Success? <==> ParseInt(tokens[0]).Success? && AllPairs(tokens[1..]))
      && (r.Success? ==> r.value == st.(cash := ParseInt(tokens[0]).value,
                                        portfolio := Some(ReadPairs(tokens[1..], map[]).value)))
  {
    if IsComment(line) then Success(st)
    else
      var tokens := Split(line, ' ');
      SplitEmpty(line, ' ');
      match st.stage
      case ExpectTypes =>
        var counts :- CountTypes(tokens);
        Success(st.(stage := ExpectPrices, randomCount := counts.0, smaCount := counts.1))
      case ExpectPrices =>
        var prices :- ReadPairs(tokens, map[]);
        Success(st.(stage := ExpectPortfolio, prices := Some(prices)))
      case ExpectPortfolio =>
        if |tokens| == 0 then Failure(IndexOutOfBounds)
        else
          var cash :- ParseInt(tokens[0]);
          var portfolio :- ReadPairs(tokens[1..], map[]);
          Success(st.(cash := cash, portfolio := Some(portfolio)))
  }

  /** The `readLine` loop; the first exception ends it. */
  function ReadAll(st: Reading, lines: seq<string>): Result<Reading>
    decreases |lines|
  {
    if |lines| == 0 then Success(st)
    else
      var st' :- ReadLine(st, lines[0]);
      ReadAll(st', lines[1..])
  }

  /** The check after the loop: a map never assigned is a NullPointerException, and every
      portfolio identifier must be a priced stock. */
  function Finish(st: Reading): (r: Result<Config>)
    ensures r.Success? <==> st.prices.Some? && st.portfolio.Some? && st.portfolio.value.Keys <= st.prices.value.Keys
    ensures st.prices.None? || st.portfolio.None? ==> r == Failure(NullPointer)
    ensures r.Success? ==> r.value == Config(st.randomCount, st.smaCount, st.prices.value, st.cash, st.portfolio.value)
  {
    if st.prices.None? || st.portfolio.None? then Failure(NullPointer)
    else if !(st.portfolio.value.Keys <= st.prices.value.Keys) then Failure(IllegalArgument)
    else Success(Config(st.randomCount, st.smaCount, st.prices.value, st.cash, st.portfolio.value))
  }

  /** `new Parser(file)`. */
  function Parse(lines: seq<string>): (r: Result<Config>)
    ensures r.Success? ==> r.value.portfolio.Keys <= r.value.prices.Keys
  {
    var st :- ReadAll(Initial(), lines);
    Finish(st)
  }

  /** Comment lines can be inserted anywhere without changing the outcome. */
  lemma {:induction false} CommentLinesIgnored(st: Reading, a: seq<string>, c: string, b: seq<string>)
    requires IsComment(c)
    ensures ReadAll(st, a + [c] + b) == ReadAll(st, a + b)
    decreases |a|
  {
    if |a| == 0 {
      assert a + [c] + b == [c] + b;
      assert ([c] + b)[1..] == b;
      assert a + b == b;
    } else {
      assert (a + [c] + b)[1..] == a[1..] + [c] + b;
      assert (a + b)[1..] == a[1..] + b;
      var next := ReadLine(st, a[0]);
      if next.Success? {
        CommentLinesIgnored(next.value, a[1..], c, b);
      }
    }
  }

  /** The same for the whole parse. */
  lemma CommentLineIgnoredByParse(a: seq<string>, c: string, b: seq<string>)
    requires IsComment(c)
    ensures Parse(a + [c] + b) == Parse(a + b)
  {
    CommentLinesIgnored(Initial(), a, c, b);
  }

  /** The number of lines that are not comments. */
  function DataLines(lines: seq<string>): nat
    decreases |lines|
  {
    if |lines| == 0 then 0 else (if IsComment(lines[0]) then 0 else 1) + DataLines(lines[1..])
  }

  /** How many of the types and prices lines the reader has read. */
  function Passed(s: Stage): nat {
    match s
    case ExpectTypes => 0
    case ExpectPrices => 1
    case ExpectPortfolio => 2
  }

  /** Too few data lines to reach the portfolio line leave the portfolio unassigned. */
  lemma {:induction false} NoPortfolioYet(st: Reading, lines: seq<string>)
    requires st.portfolio.None? && Passed(st.stage) + DataLines(lines) < 3
    ensures ReadAll(st, lines).Success? ==> ReadAll(st, lines).value.portfolio.None?
    decreases |lines|
  {
    if |lines| > 0 {
      var next := ReadLine(st, lines[0]);
      if next.Success? {
        NoPortfolioYet(next.value, lines[1..]);
      }
    }
  }

  /** A comment line heading a file changes nothing. */
  lemma CommentHeadedParse(c: string, lines: seq<string>)
    requires IsComment(c)
    ensures Parse([c] + lines) == Parse(lines)
  {
    CommentLineIgnoredByParse([], c, lines);
    assert [] + [c] + lines == [c] + lines;
    assert [] + lines == lines;
  }

  /** A file needs a types line, a prices line and a portfolio line: with fewer lines that are
      not comments, `new Parser` throws. */
  lemma TooFewLinesFail(lines: seq<string>)
    requires DataLines(lines) < 3
    ensures Parse(lines).Failure?
  {
    NoPortfolioYet(Initial(), lines);
  }

  /** Comment lines leave a reader that has not reached the portfolio line as it was. */
  lemma {:induction false} CommentLinesKeepReader(st: Reading, lines: seq<string>)
    requires st.stage != ExpectPortfolio && st.portfolio.None?
    requires forall i :: 0 <= i < |lines| ==> IsComment(lines[i])
    ensures ReadAll(st, lines) == Success(st)
    decreases |lines|
  {
    if |lines| > 0 {
      CommentLinesKeepReader(st, lines[1..]);
    }
  }

  /** A portfolio line forgets every earlier one: its outcome does not depend on the cash
      and portfolio read before it. */
  lemma LastPortfolioLineWins(st: Reading, line: string, cash: int, portfolio: Option<map<string, int>>)
    requires st.stage == ExpectPortfolio && !IsComment(line)
    ensures ReadLine(st, line) == ReadLine(st.(cash := cash, portfolio := portfolio), line)
  {
  }

  // ---------------------------------------------------------------- writing a file back

  /** An identifier the file format can carry: no space and no colon. */
  predicate Plain(k: string) {
    ' ' !in k && ':' !in k
  }

  /** The `identifier:number` tokens for `keys`, in that order. */
  function RenderPairs(keys: seq<string>, m: map<string, int>): (r: seq<string>)
    requires forall i :: 0 <= i < |keys| ==> keys[i] in m
    ensures |r| == |keys|
    ensures forall i :: 0 <= i < |r| ==> r[i] == keys[i] + ":" + Show(m[keys[i]])
  {
    seq(|keys|, i requires 0 <= i < |keys| => keys[i] + ":" + Show(m[keys[i]]))
  }

  /** `count` copies of `t`. */
  function Repeat(t: string, count: nat): (r: seq<string>)
    ensures |r| == count && forall i :: 0 <= i < count ==> r[i] == t
  {
    seq(count, _ => t)
  }

  /** The types line: `R` once per random investor, then `S` once per SMA investor. */
  function TypesLine(c: Config): string
    requires c.randomCount >= 0 && c.smaCount >= 0
  {
    Join(Repeat("R", c.randomCount) + Repeat("S", c.smaCount), ' ')
  }

  /** The prices line, stocks in the order `keys`. */
  function PricesLine(c: Config, keys: seq<string>): string
    requires forall i :: 0 <= i < |keys| ==> keys[i] in c.prices
  {
    Join(RenderPairs(keys, c.prices), ' ')
  }

  /** The portfolio line: the cash, then the holdings in the order `keys`. */
  function PortfolioLine(c: Config, keys: seq<string>): string
    requires forall i :: 0 <= i < |keys| ==> keys[i] in c.portfolio
  {
    Join([Show(c.cash)] + RenderPairs(keys, c.portfolio), ' ')
  }

  /** A configuration written in the file format, maps listed in the given key orders. */
  function Render(c: Config, priceKeys: seq<string>, portfolioKeys: seq<string>): seq<string>
    requires c.randomCount >= 0 && c.smaCount >= 0
    requires forall i :: 0 <= i < |priceKeys| ==> priceKeys[i] in c.prices
    requires forall i :: 0 <= i < |portfolioKeys| ==> portfolioKeys[i] in c.portfolio
  {
    [TypesLine(c), PricesLine(c, priceKeys), PortfolioLine(c, portfolioKeys)]
  }

  /** The key order lists every key of the map (repeats are harmless). */
  ghost predicate ListsKeys(keys: seq<string>, m: map<string, int>) {
    forall k :: k in m <==> k in keys
  }

  /** Every configuration the format can express parses back from its rendering: at least one
      investor, at least one stock, plain identifiers with the first not starting with `#`,
      32-bit numbers, and portfolio stocks that are priced. */
  lemma ParseRender(c: Config, priceKeys: seq<string>, portfolioKeys: seq<string>)
    requires c.randomCount >= 0 && c.smaCount >= 0 && InvestorCount(c) >= 1
    requires ListsKeys(priceKeys, c.prices) && |priceKeys| >= 1 && !IsComment(priceKeys[0])
    requires ListsKeys(portfolioKeys, c.portfolio)
    requires forall k :: k in c.prices ==> Plain(k) && InIntRange(c.prices[k])
    requires forall k :: k in c.portfolio ==> Plain(k) && InIntRange(c.portfolio[k])
    requires InIntRange(c.cash)
    requires c.portfolio.Keys <= c.prices.Keys
    ensures Parse(Render(c, priceKeys, portfolioKeys)) == Success(c)
  {
    var lines := Render(c, priceKeys, portfolioKeys);
    var st1 := ReadTypesLine(c);
    var st2 := ReadPricesLine(st1, c, priceKeys);
    var st3 := ReadPortfolioLine(st2, c, portfolioKeys);
    ReadAllStep(Initial(), lines, st1);
    ReadAllStep(st1, lines[1..], st2);
    ReadAllStep(st2, lines[1..][1..], st3);
    assert lines[1..][1..][1..] == [];
  }

  /** The reading loop after one successful line. */
  lemma ReadAllStep(st: Reading, lines: seq<string>, st': Reading)
    requires |lines| > 0 && ReadLine(st, lines[0]) == Success(st')
    ensures ReadAll(st, lines) == ReadAll(st', lines[1..])
  {
  }

  /** The rendered types line sets the two counts. */
  lemma ReadTypesLine(c: Config) returns (st: Reading)
    requires c.randomCount >= 0 && c.smaCount >= 0 && InvestorCount(c) >= 1
    ensures st == Initial().(stage := ExpectPrices, randomCount := c.randomCount, smaCount := c.smaCount)
    ensures ReadLine(Initial(), TypesLine(c)) == Success(st)
  {
    var tokens := Repeat("R", c.randomCount) + Repeat("S", c.smaCount);
    assert forall i :: 0 <= i < |tokens| ==> ' ' !in tokens[i];
    SplitJoin(tokens, ' ');
    var line := Join(tokens, ' ');
    assert !IsComment(line) by { JoinStartsWithHead(tokens, ' '); }
    RepeatCounts(c.randomCount, c.smaCount);
    st := Initial().(stage := ExpectPrices, randomCount := c.randomCount, smaCount := c.smaCount);
  }

  /** How many `R` and `S` tokens the types line holds. */
  lemma RepeatCounts(r: nat, s: nat)
    ensures multiset(Repeat("R", r) + Repeat("S", s))["R"] == r
    ensures multiset(Repeat("R", r) + Repeat("S", s))["S"] == s
  {
    RepeatCount("R", r, "S");
    RepeatCount("S", s, "R");
  }

  lemma {:induction false} RepeatCount(t: string, n: nat, other: string)
    requires t != other
    ensures multiset(Repeat(t, n))[t] == n && multiset(Repeat(t, n))[other] == 0
    decreases n
  {
    if n > 0 {
      RepeatCount(t, n - 1, other);
      assert Repeat(t, n) == Repeat(t, n - 1) + [t];
    }
  }

  /** A joined line begins with its first piece. */
  lemma JoinStartsWithHead(ps: seq<string>, sep: char)
    requires |ps| >= 1
    ensures |ps[0]| <= |Join(ps, sep)| && Join(ps, sep)[..|ps[0]|] == ps[0]
  {
    if |ps| > 1 {
      assert Join(ps, sep) == ps[0] + ([sep] + Join(ps[1..], sep));
    }
  }

  /** A joined line is a comment exactly when its first piece starts with `#`. */
  lemma JoinedNotComment(ps: seq<string>, sep: char)
    requires |ps| >= 1 && |ps[0]| >= 1 && ps[0][0] != '#'
    ensures !IsComment(Join(ps, sep))
  {
    JoinStartsWithHead(ps, sep);
    assert Join(ps, sep)[0] == Join(ps, sep)[..|ps[0]|][0];
  }

  /** The rendered prices line sets the price map. */
  lemma ReadPricesLine(st: Reading, c: Config, priceKeys: seq<string>) returns (st': Reading)
    requires st.stage == ExpectPrices
    requires ListsKeys(priceKeys, c.prices) && |priceKeys| >= 1 && !IsComment(priceKeys[0])
    requires forall k :: k in c.prices ==> Plain(k) && InIntRange(c.prices[k])
    ensures st' == st.(stage := ExpectPortfolio, prices := Some(c.prices))
    ensures ReadLine(st, PricesLine(c, priceKeys)) == Success(st')
  {
    var tokens := RenderPairs(priceKeys, c.prices);
    PairTokensArePlain(priceKeys, c.prices);
    SplitJoin(tokens, ' ');
    FirstPairNotComment(priceKeys[0], Show(c.prices[priceKeys[0]]));
    JoinedNotComment(tokens, ' ');
    ReadRenderedPairs(priceKeys, c.prices, map[]);
    RestrictAll(priceKeys, c.prices);
    st' := st.(stage := ExpectPortfolio, prices := Some(c.prices));
    PricesLineStep(st, PricesLine(c, priceKeys), c.prices);
  }

  /** A pair token does not start with `#` when its identifier does not. */
  lemma FirstPairNotComment(k: string, v: string)
    requires !IsComment(k)
    ensures (k + ":" + v)[0] != '#'
  {
    if |k| > 0 {
      assert (k + ":" + v)[0] == k[0];
    }
  }

  /** Reading back every key of `m` rebuilds `m`. */
  lemma RestrictAll(keys: seq<string>, m: map<string, int>)
    requires ListsKeys(keys, m)
    ensures map[] + Restrict(keys, m) == m
  {
  }

  /** A prices line whose pairs read as `p`. */
  lemma PricesLineStep(st: Reading, line: string, p: map<string, int>)
    requires st.stage == ExpectPrices && !IsComment(line) && ReadPairs(Split(line, ' '), map[]) == Success(p)
    ensures ReadLine(st, line) == Success(st.(stage := ExpectPortfolio, prices := Some(p)))
  {
  }

  /** A portfolio line whose cash reads as `cash` and whose pairs read as `p`. */
  lemma PortfolioLineStep(st: Reading, line: string, cash: int, p: map<string, int>)
    requires st.stage == ExpectPortfolio && !IsComment(line)
    requires |Split(line, ' ')| > 0 && ParseInt(Split(line, ' ')[0]) == Success(cash)
    requires ReadPairs(Split(line, ' ')[1..], map[]) == Success(p)
    ensures ReadLine(st, line) == Success(st.(cash := cash, portfolio := Some(p)))
  {
  }

  /** The rendered portfolio line sets cash and portfolio; the check after the loop passes. */
  lemma ReadPortfolioLine(st: Reading, c: Config, portfolioKeys: seq<string>) returns (st': Reading)
    requires st.stage == ExpectPortfolio && st.prices == Some(c.prices)
    requires st.randomCount == c.randomCount && st.smaCount == c.smaCount
    requires ListsKeys(portfolioKeys, c.portfolio)
    requires forall k :: k in c.portfolio ==> Plain(k) && InIntRange(c.portfolio[k])
    requires InIntRange(c.cash)
    requires c.portfolio.Keys <= c.prices.Keys
    ensures ReadLine(st, PortfolioLine(c, portfolioKeys)) == Success(st')
    ensures Finish(st') == Success(c)
  {
    var pairs := RenderPairs(portfolioKeys, c.portfolio);
    var tokens := [Show(c.cash)] + pairs;
    PairTokensArePlain(portfolioKeys, c.portfolio);
    SplitJoin(tokens, ' ');
    JoinedNotComment(tokens, ' ');
    ParseShow(c.cash);
    assert tokens[1..] == pairs;
    ReadRenderedPairs(portfolioKeys, c.portfolio, map[]);
    RestrictAll(portfolioKeys, c.portfolio);
    st' := st.(cash := c.cash, portfolio := Some(c.portfolio));
    PortfolioLineStep(st, PortfolioLine(c, portfolioKeys), c.cash, c.portfolio);
  }

  /** Rendered pair tokens are non-empty and contain no space. */
  lemma PairTokensArePlain(keys: seq<string>, m: map<string, int>)
    requires forall i :: 0 <= i < |keys| ==> keys[i] in m && Plain(keys[i])
    ensures forall i :: 0 <= i < |keys| ==> ' ' !in RenderPairs(keys, m)[i] && RenderPairs(keys, m)[i] != ""
  {
    var r := RenderPairs(keys, m);
    forall i | 0 <= i < |keys|
      ensures ' ' !in r[i] && r[i] != ""
    {
      assert r[i] == keys[i] + (":" + Show(m[keys[i]]));
      assert r[i][|keys[i]|] == ':';
    }
  }

  /** The entries of `m` whose keys appear in `keys`. */
  function Restrict(keys: seq<string>, m: map<string, int>): map<string, int> {
    map k | k in keys && k in m :: m[k]
  }

  /** The pair loop reads back the rendered tokens of plain keys. */
  lemma {:induction false} ReadRenderedPairs(keys: seq<string>, m: map<string, int>, acc: map<string, int>)
    requires forall i :: 0 <= i < |keys| ==> keys[i] in m && Plain(keys[i]) && InIntRange(m[keys[i]])
    ensures ReadPairs(RenderPairs(keys, m), acc) == Success(acc + Restrict(keys, m))
    decreases |keys|
  {
    var tokens := RenderPairs(keys, m);
    if |keys| == 0 {
      assert Restrict(keys, m) == map[];
      assert acc + map[] == acc;
    } else {
      var k := keys[0];
      PairSplits(k, m[k]);
      ParseShow(m[k]);
      ReadPairsStep(tokens, acc, k, Show(m[k]), m[k]);
      assert tokens[1..] == RenderPairs(keys[1..], m);
      ReadRenderedPairs(keys[1..], m, acc[k := m[k]]);
      RestrictStep(keys, m, acc);
    }
  }

  /** One step of the pair loop on a well-formed token. */
  lemma ReadPairsStep(tokens: seq<string>, acc: map<string, int>, k: string, t: string, v: int)
    requires |tokens| > 0 && Split(tokens[0], ':') == [k, t] && ParseInt(t) == Success(v)
    ensures ReadPairs(tokens, acc) == ReadPairs(tokens[1..], acc[k := v])
  {
  }

  lemma RestrictStep(keys: seq<string>, m: map<string, int>, acc: map<string, int>)
    requires |keys| > 0 && forall i :: 0 <= i < |keys| ==> keys[i] in m
    ensures acc[keys[0] := m[keys[0]]] + Restrict(keys[1..], m) == acc + Restrict(keys, m)
  {
    var k := keys[0];
    var left := acc[k := m[k]] + Restrict(keys[1..], m);
    var right := acc + Restrict(keys, m);
    assert forall j :: j in keys <==> j == k || j in keys[1..];
    assert left.Keys == right.Keys;
  }

  /** A rendered `identifier:number` token splits at its one colon. */
  lemma PairSplits(k: string, v: int)
    requires Plain(k)
    ensures Split(k + ":" + Show(v), ':') == [k, Show(v)]
  {
    SplitJoin([k, Show(v)], ':');
    assert Join([k, Show(v)], ':') == k + ":" + Show(v);
  }
}
