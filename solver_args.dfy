/** The front page of the solver: it reads a line of numbers (the tiles, then
  * the target), checks it, pads it to the solver's seven argument slots with
  * leading zeros, and calls the solver. The solver itself is a compiled
  * module and is given here as a parameter. */
module SolverArgs {

  datatype Option<T> = None | Some(value: T)

  /** A white-space character as `trim` and the regular expression `\s` see
    * it: the ECMAScript WhiteSpace and LineTerminator code points. */
  predicate IsSpace(c: char)
  {
    || '\t' <= c <= '\r'
    || c == ' '
    || c == '\U{00A0}'
    || c == '\U{1680}'
    || '\U{2000}' <= c <= '\U{200A}'
    || c == '\U{2028}' || c == '\U{2029}'
    || c == '\U{202F}'
    || c == '\U{205F}'
    || c == '\U{3000}'
    || c == '\U{FEFF}'
  }

  predicate NoSpace(s: string)
  {
    forall i :: 0 <= i < |s| ==> !IsSpace(s[i])
  }

  /** The characters of s that are not white space, in order. */
  function NonSpace(s: string): string
  {
    if s == [] then [] else (if IsSpace(s[0]) then [] else [s[0]]) + NonSpace(s[1..])
  }

  lemma {:induction false} NonSpaceAppend(a: string, b: string)
    ensures NonSpace(a + b) == NonSpace(a) + NonSpace(b)
    decreases |a|
  {
    if a == [] {
      assert a + b == b;
    } else {
      var head := if IsSpace(a[0]) then [] else [a[0]];
      assert (a + b)[0] == a[0];
      assert (a + b)[1..] == a[1..] + b;
      assert NonSpace(a + b) == head + NonSpace(a[1..] + b);
      NonSpaceAppend(a[1..], b);
      assert NonSpace(a) == head + NonSpace(a[1..]);
    }
  }

  lemma {:induction false} NonSpaceOfSpaces(s: string)
    requires forall i :: 0 <= i < |s| ==> IsSpace(s[i])
    ensures NonSpace(s) == []
    decreases |s|
  {
    if s != [] {
      NonSpaceOfSpaces(s[1..]);
    }
  }

  lemma {:induction false} NonSpaceOfWord(s: string)
    requires NoSpace(s)
    ensures NonSpace(s) == s
    decreases |s|
  {
    if s != [] {
      NonSpaceOfWord(s[1..]);
    }
  }

  /** `trimStart`: drops the leading white space. */
  function TrimStart(s: string): (r: string)
    ensures |r| <= |s|
    ensures r == [] || !IsSpace(r[0])
  {
    if s != [] && IsSpace(s[0]) then TrimStart(s[1..]) else s
  }

  /** What `trimStart` keeps is the end of the string, and what it drops is
    * white space. */
  lemma {:induction false} TrimStartSuffix(s: string)
    ensures TrimStart(s) == s[|s| - |TrimStart(s)|..]
    ensures forall i :: 0 <= i < |s| - |TrimStart(s)| ==> IsSpace(s[i])
    decreases |s|
  {
    if s != [] && IsSpace(s[0]) {
      TrimStartSuffix(s[1..]);
    }
  }

  /** `trimEnd`: drops the trailing white space. */
  function TrimEnd(s: string): (r: string)
    ensures |r| <= |s|
    ensures forall i :: |r| <= i < |s| ==> IsSpace(s[i])
    ensures r == [] || !IsSpace(r[|r| - 1])
  {
    if s != [] && IsSpace(s[|s| - 1]) then TrimEnd(s[..|s| - 1]) else s
  }

  /** What `trimEnd` keeps is the start of the string. */
  lemma {:induction false} TrimEndPrefix(s: string)
    ensures TrimEnd(s) == s[..|TrimEnd(s)|]
    decreases |s|
  {
    if s != [] && IsSpace(s[|s| - 1]) {
      TrimEndPrefix(s[..|s| - 1]);
      assert s[..|s| - 1][..|TrimEnd(s)|] == s[..|TrimEnd(s)|];
    }
  }

  /** `trim`: drops white space at both ends. */
  function Trim(s: string): (r: string)
    ensures r == [] || (!IsSpace(r[0]) && !IsSpace(r[|r| - 1]))
  {
    var t := TrimStart(s);
    TrimEndPrefix(t);
    TrimEnd(t)
  }

  /** The position of the first white-space character of s, or |s|. */
  function FirstSpace(s: string): (i: nat)
    ensures i <= |s| && NoSpace(s[..i]) && (i < |s| ==> IsSpace(s[i]))
  {
    if s == [] || IsSpace(s[0]) then 0
    else
      var k := FirstSpace(s[1..]);
      assert s[..k + 1] == [s[0]] + s[1..][..k];
      k + 1
  }

  /** `split(/\s+/)`: the pieces of s between runs of white space. A leading
    * or trailing run gives an empty first or last piece, and the empty
    * string gives one empty piece. */
  function Split(s: string): (r: seq<string>)
    ensures |r| >= 1
    ensures forall k :: 0 <= k < |r| ==> NoSpace(r[k])
    decreases |s|
  {
    var i := FirstSpace(s);
    if i == |s| then [s] else [s[..i]] + Split(TrimStart(s[i + 1..]))
  }

  /** The tokens of an input line: `value.trim().split(/\s+/)`. */
  function Tokens(input: string): seq<string>
  {
    Split(Trim(input))
  }

  function Concat(ss: seq<string>): string
  {
    if ss == [] then [] else ss[0] + Concat(ss[1..])
  }

  /** Splitting loses only white space. */
  lemma {:induction false} SplitKeepsNonSpace(s: string)
    ensures Concat(Split(s)) == NonSpace(s)
    decreases |s|
  {
    var i := FirstSpace(s);
    if i == |s| {
      NonSpaceOfWord(s);
      assert Concat(Split(s)) == s + Concat([]);
    } else {
      var rest := TrimStart(s[i + 1..]);
      SplitStep(s);
      SplitKeepsNonSpace(rest);
      NonSpaceStep(s);
    }
  }

  /** Split at the first white space: the word before it, then the rest. */
  lemma SplitStep(s: string)
    requires FirstSpace(s) < |s|
    ensures Concat(Split(s)) == s[..FirstSpace(s)] + Concat(Split(TrimStart(s[FirstSpace(s) + 1..])))
  {
    var i := FirstSpace(s);
    var r := Split(s);
    assert r == [s[..i]] + Split(TrimStart(s[i + 1..]));
    assert r[0] == s[..i] && r[1..] == Split(TrimStart(s[i + 1..]));
  }

  /** The non-space characters of s are the word before its first white
    * space, then those of what follows the run of white space. */
  lemma NonSpaceStep(s: string)
    requires FirstSpace(s) < |s|
    ensures NonSpace(s) == s[..FirstSpace(s)] + NonSpace(TrimStart(s[FirstSpace(s) + 1..]))
  {
    var i := FirstSpace(s);
    var word := s[..i];
    NonSpaceOfWord(word);
    assert s == word + s[i..];
    NonSpaceAppend(word, s[i..]);
    NonSpaceDropSpace(s[i..]);
    assert s[i..][1..] == s[i + 1..];
    NonSpaceOfTrimStart(s[i + 1..]);
  }

  lemma NonSpaceOfTrimStart(s: string)
    ensures NonSpace(TrimStart(s)) == NonSpace(s)
  {
    var t := TrimStart(s);
    var lead := s[..|s| - |t|];
    assert s == lead + t && forall i :: 0 <= i < |lead| ==> IsSpace(lead[i]) by {
      TrimStartSuffix(s);
    }
    NonSpaceOfSpaces(lead);
    NonSpaceAppend(lead, t);
  }

  lemma NonSpaceOfTrimEnd(s: string)
    ensures NonSpace(TrimEnd(s)) == NonSpace(s)
  {
    var t := TrimEnd(s);
    var trail := s[|t|..];
    assert s == t + trail by {
      TrimEndPrefix(s);
    }
    NonSpaceOfSpaces(trail);
    NonSpaceAppend(t, trail);
  }

  lemma NonSpaceDropSpace(s: string)
    requires s != [] && IsSpace(s[0])
    ensures NonSpace(s) == NonSpace(s[1..])
  {
  }

  /** A string that starts and ends with a non-space splits into non-empty
    * tokens. */
  lemma {:induction false} SplitNonEmpty(s: string)
    requires s != [] && !IsSpace(s[0]) && !IsSpace(s[|s| - 1])
    ensures forall k :: 0 <= k < |Split(s)| ==> Split(s)[k] != []
    decreases |s|
  {
    var i := FirstSpace(s);
    if i < |s| {
      var rest := TrimStart(s[i + 1..]);
      assert i < |s| - 1;
      TrimStartSuffix(s[i + 1..]);
      assert rest[|rest| - 1] == s[|s| - 1];
      SplitNonEmpty(rest);
      assert Split(s)[1..] == Split(rest);
    }
  }

  /** A non-empty run of white space. */
  predicate IsGap(g: string)
  {
    g != [] && forall i :: 0 <= i < |g| ==> IsSpace(g[i])
  }

  /** The pieces put back together with the gaps between them. */
  function Join(pieces: seq<string>, gaps: seq<string>): string
    requires |pieces| >= 1 && |gaps| == |pieces| - 1
  {
    if |pieces| == 1 then pieces[0] else pieces[0] + gaps[0] + Join(pieces[1..], gaps[1..])
  }

  /** The runs of white space `split(/\s+/)` cuts s at, in order. */
  function Gaps(s: string): (r: seq<string>)
    ensures |r| == |Split(s)| - 1
    decreases |s|
  {
    var i := FirstSpace(s);
    if i == |s| then []
    else
      var rest := TrimStart(s[i + 1..]);
      [s[i..|s| - |rest|]] + Gaps(rest)
  }

  /** The white space at a cut runs from the first space up to what
    * `trimStart` keeps of the rest. */
  lemma GapAt(s: string, i: nat)
    requires i < |s| && IsSpace(s[i])
    ensures var rest := TrimStart(s[i + 1..]);
            i < |s| - |rest| && IsGap(s[i..|s| - |rest|])
  {
    var tail := s[i + 1..];
    var rest := TrimStart(tail);
    TrimStartSuffix(tail);
    var gap := s[i..|s| - |rest|];
    forall j | 0 <= j < |gap|
      ensures IsSpace(gap[j])
    {
      if j > 0 {
        assert gap[j] == tail[j - 1];
      }
    }
  }

  /** At a cut, s is the word before it, the white space, and the rest. */
  lemma CutAt(s: string, i: nat)
    requires i < |s| && IsSpace(s[i])
    ensures var rest := TrimStart(s[i + 1..]);
            i < |s| - |rest| && s == s[..i] + s[i..|s| - |rest|] + rest
  {
    var tail := s[i + 1..];
    var rest := TrimStart(tail);
    TrimStartSuffix(tail);
    assert s == s[..i] + s[i..|s| - |rest|] + rest;
  }

  /** One more piece and gap in front of a joined string. */
  lemma JoinCons(p: string, ps: seq<string>, g: string, gs: seq<string>, rest: string)
    requires |ps| >= 1 && |gs| == |ps| - 1 && Join(ps, gs) == rest
    ensures Join([p] + ps, [g] + gs) == p + g + rest
  {
    assert ([p] + ps)[1..] == ps && ([g] + gs)[1..] == gs;
  }

  /** At the first cut of s, the pieces and the gaps of s are the word and
    * the gap there, then those of the rest. */
  lemma SplitAt(s: string)
    requires FirstSpace(s) < |s|
    ensures var i := FirstSpace(s);
            var rest := TrimStart(s[i + 1..]);
            && Split(s) == [s[..i]] + Split(rest)
            && Gaps(s) == [s[i..|s| - |rest|]] + Gaps(rest)
  {
  }

  /** The pieces of s with its gaps between them give s back. */
  lemma {:induction false} JoinSplit(s: string)
    ensures Join(Split(s), Gaps(s)) == s
    decreases |s|
  {
    var i := FirstSpace(s);
    if i == |s| {
      assert Split(s) == [s] && Gaps(s) == [];
    } else {
      var rest := TrimStart(s[i + 1..]);
      var word, gap := s[..i], s[i..|s| - |rest|];
      SplitAt(s);
      JoinSplit(rest);
      JoinCons(word, Split(rest), gap, Gaps(rest), rest);
      CutAt(s, i);
    }
  }

  /** Every cut of s is a non-empty run of white space. */
  lemma {:induction false} GapsAreGaps(s: string)
    ensures forall k :: 0 <= k < |Gaps(s)| ==> IsGap(Gaps(s)[k])
    decreases |s|
  {
    var i := FirstSpace(s);
    if i < |s| {
      var rest := TrimStart(s[i + 1..]);
      var g, gs := Gaps(s), Gaps(rest);
      assert g == [s[i..|s| - |rest|]] + gs;
      GapAt(s, i);
      GapsAreGaps(rest);
      forall k | 0 <= k < |g|
        ensures IsGap(g[k])
      {
        if k > 0 {
          assert g[k] == gs[k - 1];
        }
      }
    }
  }

  /** Only the first and the last piece of a split can be empty: two runs
    * of white space are never cut apart. */
  lemma {:induction false} InnerPiecesNonEmpty(s: string)
    ensures forall k :: 0 < k < |Split(s)| - 1 ==> Split(s)[k] != []
    decreases |s|
  {
    var i := FirstSpace(s);
    if i < |s| {
      var rest := TrimStart(s[i + 1..]);
      var p, ps := Split(s), Split(rest);
      SplitAt(s);
      InnerPiecesNonEmpty(rest);
      if |ps| >= 2 {
        var j := FirstSpace(rest);
        assert j < |rest| && 0 < j;
        SplitAt(rest);
        assert ps[0] == rest[..j];
      }
      forall k | 0 < k < |p| - 1
        ensures p[k] != []
      {
        assert p[k] == ps[k - 1];
      }
    }
  }

  /** `split(/\s+/)` cuts exactly at the runs of white space: s is its
    * pieces, none of which holds white space, with a non-empty run of white
    * space between each two, and no empty piece except at either end. */
  lemma SplitCuts(s: string)
    ensures forall k :: 0 <= k < |Split(s)| ==> NoSpace(Split(s)[k])
    ensures forall k :: 0 < k < |Split(s)| - 1 ==> Split(s)[k] != []
    ensures exists gaps :: |gaps| == |Split(s)| - 1 && (forall k :: 0 <= k < |gaps| ==> IsGap(gaps[k]))
                           && Join(Split(s), gaps) == s
  {
    JoinSplit(s);
    GapsAreGaps(s);
    InnerPiecesNonEmpty(s);
    var gaps := Gaps(s);
    assert |gaps| == |Split(s)| - 1 && (forall k :: 0 <= k < |gaps| ==> IsGap(gaps[k])) && Join(Split(s), gaps) == s;
  }

  /** Trimming loses only white space. */
  lemma TrimKeepsNonSpace(s: string)
    ensures NonSpace(Trim(s)) == NonSpace(s)
  {
    NonSpaceOfTrimStart(s);
    NonSpaceOfTrimEnd(TrimStart(s));
  }

  /** The tokens of a line are its non-space characters cut at white space:
    * one empty token when the line is blank, and otherwise non-empty tokens
    * without white space. */
  lemma TokensOfLine(input: string)
    ensures Concat(Tokens(input)) == NonSpace(input)
    ensures forall k :: 0 <= k < |Tokens(input)| ==> NoSpace(Tokens(input)[k])
    ensures NonSpace(input) == [] ==> Tokens(input) == [[]]
    ensures NonSpace(input) != [] ==> forall k :: 0 <= k < |Tokens(input)| ==> Tokens(input)[k] != []
    ensures exists gaps :: |gaps| == |Tokens(input)| - 1 && (forall k :: 0 <= k < |gaps| ==> IsGap(gaps[k]))
                           && Join(Tokens(input), gaps) == Trim(input)
  {
    var t := Trim(input);
    TrimKeepsNonSpace(input);
    SplitKeepsNonSpace(t);
    SplitCuts(t);
    if t == [] {
      assert Split(t) == [[]];
    } else {
      SplitNonEmpty(t);
    }
  }

  predicate IsDigit(c: char)
  {
    '0' <= c <= '9'
  }

  /** The length of the run of decimal digits that starts s. */
  function LeadingDigits(s: string): (n: nat)
    ensures n <= |s| && (forall i :: 0 <= i < n ==> IsDigit(s[i])) && (n < |s| ==> !IsDigit(s[n]))
  {
    if s == [] || !IsDigit(s[0]) then 0 else LeadingDigits(s[1..]) + 1
  }

  /** The value of a string of decimal digits. */
  function DigitsValue(d: string): nat
    requires forall i :: 0 <= i < |d| ==> IsDigit(d[i])
  {
    if d == [] then 0
    else
      var last := d[|d| - 1];
      assert IsDigit(last);
      DigitsValue(d[..|d| - 1]) * 10 + (last as int - '0' as int)
  }

  /** `parseInt` without a radix, for decimal text: leading white space and
    * one sign are skipped, then the longest run of digits is read and the
    * rest is ignored; no digit at all gives NaN, here None. */
  function ParseInt(token: string): Option<int>
  {
    var s := TrimStart(token);
    var negative := s != [] && s[0] == '-';
    var rest := if s != [] && (s[0] == '-' || s[0] == '+') then s[1..] else s;
    var n := LeadingDigits(rest);
    if n == 0 then None
    else
      var magnitude: int := DigitsValue(rest[..n]);
      Some(if negative then -magnitude else magnitude)
  }

  /** A digit string has a positive value exactly when some digit is not 0. */
  lemma {:induction false} DigitsPositive(d: string)
    requires forall i :: 0 <= i < |d| ==> IsDigit(d[i])
    ensures DigitsValue(d) > 0 <==> exists i :: 0 <= i < |d| && d[i] != '0'
    decreases |d|
  {
    if d != [] {
      var p := d[..|d| - 1];
      DigitsPositive(p);
      if DigitsValue(p) > 0 {
        var i :| 0 <= i < |p| && p[i] != '0';
        assert d[i] != '0';
      }
      if exists i :: 0 <= i < |d| && d[i] != '0' {
        var i :| 0 <= i < |d| && d[i] != '0';
        if i < |d| - 1 {
          assert p[i] != '0';
        }
      }
    }
  }

  /** The decimal text of a positive number, without leading zeros. */
  function Decimal(n: nat): (s: string)
    requires n > 0
    ensures s != [] && forall i :: 0 <= i < |s| ==> IsDigit(s[i])
  {
    var c := ('0' as int + n % 10) as char;
    if n < 10 then [c] else Decimal(n / 10) + [c]
  }

  lemma {:induction false} DecimalValue(n: nat)
    requires n > 0
    ensures DigitsValue(Decimal(n)) == n
    decreases n
  {
    var s := Decimal(n);
    if n >= 10 {
      DecimalValue(n / 10);
      assert s[..|s| - 1] == Decimal(n / 10);
    }
  }

  /** Reading the decimal text of a positive number gives the number back. */
  lemma ParseDecimal(n: nat)
    requires n > 0
    ensures ParseInt(Decimal(n)) == Some(n)
  {
    var s := Decimal(n);
    assert TrimStart(s) == s;
    assert LeadingDigits(s) == |s| by {
      LeadingDigitsAll(s);
    }
    assert s[..|s|] == s;
    DecimalValue(n);
  }

  lemma {:induction false} LeadingDigitsAll(s: string)
    requires forall i :: 0 <= i < |s| ==> IsDigit(s[i])
    ensures LeadingDigits(s) == |s|
    decreases |s|
  {
    if s != [] {
      LeadingDigitsAll(s[1..]);
    }
  }

  /** A token the page accepts: it parses, and to a number above 0. */
  predicate Accepted(token: string)
  {
    ParseInt(token).Some? && ParseInt(token).value > 0
  }

  /** A token is accepted exactly when, after its leading white space and
    * an optional `+`, it starts with a run of digits that are not all 0; a
    * `-` sign is refused. */
  lemma AcceptedIff(token: string)
    ensures var s := TrimStart(token);
            var rest := if s != [] && (s[0] == '-' || s[0] == '+') then s[1..] else s;
            Accepted(token) <==>
              && !(s != [] && s[0] == '-')
              && exists i :: 0 <= i < LeadingDigits(rest) && rest[i] != '0'
  {
    var s := TrimStart(token);
    var rest := if s != [] && (s[0] == '-' || s[0] == '+') then s[1..] else s;
    var n := LeadingDigits(rest);
    if n > 0 {
      var d := rest[..n];
      DigitsPositive(d);
      assert forall i :: 0 <= i < n ==> d[i] == rest[i];
    }
  }

  /** The position of the first token the page refuses, if any. */
  function FirstRefused(tokens: seq<string>): (r: Option<nat>)
    ensures r.Some? ==> r.value < |tokens| && !Accepted(tokens[r.value])
                        && forall j :: 0 <= j < r.value ==> Accepted(tokens[j])
    ensures r.None? ==> forall j :: 0 <= j < |tokens| ==> Accepted(tokens[j])
  {
    if tokens == [] then None
    else if !Accepted(tokens[0]) then Some(0)
    else
      var rest := tokens[1..];
      var later := FirstRefused(rest);
      if later.None? then
        assert forall j :: 0 <= j < |tokens| ==> Accepted(tokens[j]) by {
          forall j | 0 < j < |tokens| ensures Accepted(tokens[j]) {
            assert tokens[j] == rest[j - 1];
          }
        }
        None
      else
        assert forall j :: 0 <= j < later.value + 1 ==> Accepted(tokens[j]) by {
          forall j | 0 < j < later.value + 1 ensures Accepted(tokens[j]) {
            assert tokens[j] == rest[j - 1];
          }
        }
        assert tokens[later.value + 1] == rest[later.value];
        Some(later.value + 1)
  }

  /** Past an accepted first token, the first refused one is found in the rest. */
  lemma RefusedCons(tokens: seq<string>)
    requires tokens != [] && Accepted(tokens[0])
    ensures FirstRefused(tokens) == (if FirstRefused(tokens[1..]).None? then None
                                     else Some(FirstRefused(tokens[1..]).value + 1))
  {
  }

  /** The token the left-to-right scan stops at is the first refused one. */
  lemma {:induction false} RefusedAt(tokens: seq<string>, i: nat)
    requires i < |tokens| && !Accepted(tokens[i])
    requires forall k :: 0 <= k < i ==> Accepted(tokens[k])
    ensures FirstRefused(tokens) == Some(i)
    decreases i
  {
    if i > 0 {
      var rest := tokens[1..];
      assert !Accepted(rest[i - 1]) && forall k :: 0 <= k < i - 1 ==> Accepted(rest[k]) by {
        assert rest[i - 1] == tokens[i];
        assert forall k :: 0 <= k < i - 1 ==> rest[k] == tokens[k + 1];
      }
      RefusedAt(rest, i - 1);
      RefusedCons(tokens);
    }
  }

  /** An element of the argument array: still the token text, or the number
    * the loop has written over it. */
  datatype Arg = Text(text: string) | Number(number: int)

  /** What a run shows and does: the message of the alert it raises, if any,
    * and the arguments it passes to the solver, if it calls it. */
  datatype Outcome = Outcome(alert: Option<string>, call: Option<seq<int>>)

  const CountMessage := "fewer/more operands than expected"
  const BadNumberMessage := "bad number: "
  const NoAnswerMessage := "no answer"

  /** The numbers of a line whose every token is accepted. */
  function Parsed(tokens: seq<string>): (r: seq<int>)
    requires forall k :: 0 <= k < |tokens| ==> Accepted(tokens[k])
    ensures |r| == |tokens|
    ensures forall k :: 0 <= k < |r| ==> r[k] > 0 && ParseInt(tokens[k]) == Some(r[k])
  {
    seq(|tokens|, k requires 0 <= k < |tokens| => Value(tokens[k]))
  }

  /** The number an accepted token stands for. */
  function Value(token: string): (v: int)
    requires Accepted(token)
    ensures v > 0 && ParseInt(token) == Some(v)
  {
    ParseInt(token).value
  }

  function Zeros(n: nat): (r: seq<int>)
    ensures |r| == n && forall k :: 0 <= k < n ==> r[k] == 0
  {
    seq(n, _ => 0)
  }

  /** The seven solver arguments: the numbers in the last slots, zeros before. */
  function Padded(xs: seq<int>): (r: seq<int>)
    requires |xs| <= 7
    ensures |r| == 7 && forall k :: 0 <= k < |xs| ==> r[7 - |xs| + k] == xs[k]
    ensures forall k :: 0 <= k < 7 - |xs| ==> r[k] == 0
  {
    Zeros(7 - |xs|) + xs
  }

  function AsArgs(xs: seq<int>): (r: seq<Arg>)
    ensures |r| == |xs| && forall k :: 0 <= k < |xs| ==> r[k] == Number(xs[k])
  {
    seq(|xs|, k requires 0 <= k < |xs| => Number(xs[k]))
  }

  /** Inserting a 0 at the front is one more leading zero. */
  lemma PadOnce(m: nat)
    ensures [Number(0)] + AsArgs(Zeros(m)) == AsArgs(Zeros(m + 1))
  {
    var a, b := [Number(0)] + AsArgs(Zeros(m)), AsArgs(Zeros(m + 1));
    assert |a| == |b|;
    forall k | 0 <= k < |a|
      ensures a[k] == b[k]
    {
      if k > 0 {
        assert a[k] == AsArgs(Zeros(m))[k - 1];
      }
    }
  }

  lemma AsArgsAppend(xs: seq<int>, ys: seq<int>)
    ensures AsArgs(xs + ys) == AsArgs(xs) + AsArgs(ys)
  {
    var a, b := AsArgs(xs + ys), AsArgs(xs) + AsArgs(ys);
    assert |a| == |b|;
    forall k | 0 <= k < |a|
      ensures a[k] == b[k]
    {
      if k >= |xs| {
        assert b[k] == AsArgs(ys)[k - |xs|];
      }
    }
  }

  /** Inserting zeros at the front until there are seven arguments. */
  method PadFront(args: seq<Arg>) returns (r: seq<Arg>)
    requires |args| <= 7
    ensures r == AsArgs(Zeros(7 - |args|)) + args
  {
    r := args;
    while |r| < 7
      invariant |args| <= |r| <= 7
      invariant r == AsArgs(Zeros(|r| - |args|)) + args
      decreases 7 - |r|
    {
      var m := |r| - |args|;
      PadOnce(m);
      r := [Number(0)] + r;
      assert |r| - |args| == m + 1;
    }
  }

  /** Submitting the input line: the line is cut into tokens, then the tokens
    * are checked and passed on. */
  method Run(input: string, solver: seq<int> -> bool) returns (o: Outcome)
    ensures o == Expected(Tokens(input), solver)
  {
    var tokens := Tokens(input);
    o := RunTokens(tokens, solver);
  }

  /** What a submission with these tokens shows and does. */
  function Expected(tokens: seq<string>, solver: seq<int> -> bool): Outcome
  {
    if |tokens| < 2 || |tokens| > 7 then
      Outcome(Some(CountMessage), None)
    else if FirstRefused(tokens).Some? then
      Outcome(Some(BadNumberMessage + tokens[FirstRefused(tokens).value]), None)
    else
      var call := Padded(Parsed(tokens));
      Outcome(if solver(call) then None else Some(NoAnswerMessage), Some(call))
  }

  /** The checks on the tokens: the count first, then each token from left to
    * right; only tokens that pass both reach the solver, with their numbers in
    * the last slots of seven and zeros before. */
  method RunTokens(tokens: seq<string>, solver: seq<int> -> bool) returns (o: Outcome)
    ensures o == Expected(tokens, solver)
  {
    var args: seq<Arg> := seq(|tokens|, k requires 0 <= k < |tokens| => Text(tokens[k]));
    if |args| < 2 || |args| > 7 {
      return Outcome(Some(CountMessage), None);
    }
    for i := 0 to |args|
      invariant |args| == |tokens|
      invariant forall k :: 0 <= k < i ==> args[k].Number? && args[k].number > 0 && ParseInt(tokens[k]) == Some(args[k].number)
      invariant forall k :: i <= k < |args| ==> args[k] == Text(tokens[k])
    {
      var x := ParseInt(args[i].text);
      if x.None? || x.value <= 0 {
        RefusedAt(tokens, i);
        ExpectedRefused(tokens, solver, i);
        return Outcome(Some(BadNumberMessage + args[i].text), None);
      }
      args := args[i := Number(x.value)];
    }
    AllParsed(tokens, args);
    o := CallSolver(tokens, args, solver);
  }

  /** Once every token has been turned into its number, the arguments are
    * those numbers. */
  lemma AllParsed(tokens: seq<string>, args: seq<Arg>)
    requires |args| == |tokens|
    requires forall k :: 0 <= k < |args| ==> args[k].Number? && args[k].number > 0 && ParseInt(tokens[k]) == Some(args[k].number)
    ensures forall k :: 0 <= k < |tokens| ==> Accepted(tokens[k])
    ensures args == AsArgs(Parsed(tokens))
  {
    assert forall k :: 0 <= k < |tokens| ==> Accepted(tokens[k]);
    var numbers := Parsed(tokens);
    assert forall k :: 0 <= k < |args| ==> args[k] == Number(numbers[k]);
  }

  /** Padding the parsed numbers and handing them to the solver. */
  method CallSolver(tokens: seq<string>, args: seq<Arg>, solver: seq<int> -> bool) returns (o: Outcome)
    requires 2 <= |tokens| <= 7 && forall k :: 0 <= k < |tokens| ==> Accepted(tokens[k])
    requires args == AsArgs(Parsed(tokens))
    ensures o == Expected(tokens, solver)
  {
    ghost var numbers := Parsed(tokens);
    var padded := PadFront(args);
    AsArgsAppend(Zeros(7 - |numbers|), numbers);
    assert padded == AsArgs(Padded(numbers));
    var call := seq(7, k requires 0 <= k < 7 && padded[k].Number? => padded[k].number);
    assert call == Padded(numbers);
    var found := solver(call);
    o := Outcome(if found then None else Some(NoAnswerMessage), Some(call));
    ExpectedCall(tokens, solver);
  }

  lemma ExpectedRefused(tokens: seq<string>, solver: seq<int> -> bool, i: nat)
    requires 2 <= |tokens| <= 7 && FirstRefused(tokens) == Some(i)
    ensures Expected(tokens, solver) == Outcome(Some(BadNumberMessage + tokens[i]), None)
  {
  }

  lemma ExpectedCall(tokens: seq<string>, solver: seq<int> -> bool)
    requires 2 <= |tokens| <= 7 && forall k :: 0 <= k < |tokens| ==> Accepted(tokens[k])
    ensures FirstRefused(tokens).None?
    ensures var call := Padded(Parsed(tokens));
      Expected(tokens, solver) == Outcome(if solver(call) then None else Some(NoAnswerMessage), Some(call))
  {
  }

  /** The line a player types for the numbers xs: their decimal texts
    * separated by single spaces. */
  function Line(xs: seq<int>): (r: string)
    requires |xs| >= 1 && forall k :: 0 <= k < |xs| ==> xs[k] > 0
    ensures r != [] && IsDigit(r[0]) && IsDigit(r[|r| - 1])
  {
    if |xs| == 1 then Decimal(xs[0])
    else Decimal(xs[0]) + " " + Line(xs[1..])
  }

  function Decimals(xs: seq<int>): (r: seq<string>)
    requires forall k :: 0 <= k < |xs| ==> xs[k] > 0
    ensures |r| == |xs| && forall k :: 0 <= k < |xs| ==> r[k] == Decimal(xs[k])
  {
    seq(|xs|, k requires 0 <= k < |xs| => Decimal(xs[k]))
  }

  lemma DecimalsCons(xs: seq<int>)
    requires |xs| >= 1 && forall k :: 0 <= k < |xs| ==> xs[k] > 0
    ensures Decimals(xs) == [Decimal(xs[0])] + Decimals(xs[1..])
  {
    var a, b := Decimals(xs), [Decimal(xs[0])] + Decimals(xs[1..]);
    assert forall k :: 0 <= k < |a| ==> a[k] == b[k];
  }

  lemma {:induction false} FirstSpaceOfWord(w: string, rest: string)
    requires forall i :: 0 <= i < |w| ==> IsDigit(w[i])
    requires rest == [] || IsSpace(rest[0])
    ensures FirstSpace(w + rest) == |w|
    decreases |w|
  {
    if w != [] {
      assert (w + rest)[1..] == w[1..] + rest;
      FirstSpaceOfWord(w[1..], rest);
    } else {
      assert w + rest == rest;
    }
  }

  /** A word of digits is a single piece. */
  lemma SplitWord(w: string)
    requires forall i :: 0 <= i < |w| ==> IsDigit(w[i])
    ensures Split(w) == [w]
  {
    FirstSpaceOfWord(w, []);
    assert w + [] == w;
  }

  /** A word of digits, one space and a line that starts with a digit: the
    * word is the first piece and the line gives the rest. */
  lemma SplitWordThen(w: string, tail: string)
    requires forall i :: 0 <= i < |w| ==> IsDigit(w[i])
    requires tail != [] && IsDigit(tail[0])
    ensures Split(w + " " + tail) == [w] + Split(tail)
  {
    var s := w + " " + tail;
    assert FirstSpace(s) == |w| by {
      assert s == w + (" " + tail);
      FirstSpaceOfWord(w, " " + tail);
    }
    assert s[..|w|] == w && s[|w| + 1..] == tail;
    assert TrimStart(tail) == tail;
  }

  /** The line of xs splits into the decimal texts of xs. */
  lemma {:induction false} SplitLine(xs: seq<int>)
    requires |xs| >= 1 && forall k :: 0 <= k < |xs| ==> xs[k] > 0
    ensures Split(Line(xs)) == Decimals(xs)
    decreases |xs|
  {
    if |xs| == 1 {
      SplitWord(Decimal(xs[0]));
    } else {
      SplitWordThen(Decimal(xs[0]), Line(xs[1..]));
      SplitLine(xs[1..]);
      DecimalsCons(xs);
    }
  }

  /** The line of xs reads back as the decimal texts of xs. */
  lemma TokensOfNumbers(xs: seq<int>)
    requires |xs| >= 1 && forall k :: 0 <= k < |xs| ==> xs[k] > 0
    ensures Tokens(Line(xs)) == Decimals(xs)
  {
    var line := Line(xs);
    assert Trim(line) == line by {
      assert !IsSpace(line[0]) && TrimStart(line) == line;
      assert !IsSpace(line[|line| - 1]) && TrimEnd(line) == line;
    }
    SplitLine(xs);
  }

  /** Each decimal text is accepted and parses back to its number. */
  lemma DecimalsParse(xs: seq<int>)
    requires forall k :: 0 <= k < |xs| ==> xs[k] > 0
    ensures forall k :: 0 <= k < |xs| ==> Accepted(Decimals(xs)[k])
    ensures Parsed(Decimals(xs)) == xs
  {
    var tokens := Decimals(xs);
    forall k | 0 <= k < |xs|
      ensures Accepted(tokens[k]) && ParseInt(tokens[k]) == Some(xs[k])
    {
      ParseDecimal(xs[k]);
    }
    var r := Parsed(tokens);
    assert forall k :: 0 <= k < |xs| ==> r[k] == xs[k];
  }

  /** A line of two to seven positive numbers, typed as their decimal texts
    * with single spaces between, reaches the solver with those numbers in
    * the last slots of seven and zeros before. */
  lemma LineReachesSolver(xs: seq<int>, solver: seq<int> -> bool)
    requires 2 <= |xs| <= 7 && forall k :: 0 <= k < |xs| ==> xs[k] > 0
    ensures Expected(Tokens(Line(xs)), solver)
            == Outcome(if solver(Padded(xs)) then None else Some(NoAnswerMessage), Some(Padded(xs)))
  {
    TokensOfNumbers(xs);
    DecimalsParse(xs);
    ExpectedCall(Decimals(xs), solver);
  }
}
