/** The number token of the lexer: a sign, then digits, at most one dot and at most one exponent mark in any
    order, an exponent mark taking a sign with it. */
module Numbers {
  import opened Chars

  /** What the number loop has done: characters taken and the three flags. */
  datatype NumScan = NumScan(len: nat, digit: bool, dot: bool, exp: bool)
  {
    function Longer(k: nat): NumScan {
      this.(len := len + k)
    }
  }

  predicate IsSign(c: char) {
    c == '-' || c == '+'
  }

  predicate IsExpMark(c: char) {
    c == 'e' || c == 'E'
  }

  /** Characters the exponent case takes: the mark and a sign right behind it. */
  function ExpLength(t: string): (k: nat)
    requires t != []
    ensures 1 <= k <= |t|
  {
    if |t| > 1 && IsSign(t[1]) then 2 else 1
  }

  function ScanDigits(t: string, digit: bool, dot: bool, exp: bool): (r: NumScan)
    ensures r.len <= |t|
  {
    if t == [] then NumScan(0, digit, dot, exp)
    else if IsDigit(t[0]) then ScanDigits(t[1..], true, dot, exp).Longer(1)
    else if t[0] == '.' && !dot then ScanDigits(t[1..], digit, true, exp).Longer(1)
    else if IsExpMark(t[0]) && !exp then ScanDigits(t[ExpLength(t)..], digit, dot, true).Longer(ExpLength(t))
    else NumScan(0, digit, dot, exp)
  }

  function SignLength(t: string): (k: nat)
    ensures k <= 1 && k <= |t|
  {
    if t != [] && IsSign(t[0]) then 1 else 0
  }

  function ScanNumber(t: string): (r: NumScan)
    ensures r.len <= |t|
  {
    ScanDigits(t[SignLength(t)..], false, false, false).Longer(SignLength(t))
  }

  /** A text the lexer takes whole, as one number. */
  predicate IsNumberToken(tok: string) {
    ScanNumber(tok).len == |tok| && ScanNumber(tok).digit
  }

  predicate IsRealToken(tok: string) {
    IsNumberToken(tok) && (ScanNumber(tok).dot || ScanNumber(tok).exp)
  }

  /** Nothing at the front of `t` could be taken into a number that ends there. */
  predicate Delimited(t: string) {
    t == [] || !(IsDigit(t[0]) || IsSign(t[0]) || IsExpMark(t[0]) || t[0] == '.')
  }

  /** The loop goes on at this character. */
  predicate Takes(c: char, dot: bool, exp: bool) {
    IsDigit(c) || (c == '.' && !dot) || (IsExpMark(c) && !exp)
  }

  /** What one turn of the loop takes. */
  function TurnLength(t: string): (k: nat)
    requires t != []
    ensures 1 <= k <= |t|
  {
    if IsExpMark(t[0]) then ExpLength(t) else 1
  }

  lemma TakesOne(t: string, digit: bool, dot: bool, exp: bool)
    requires t != [] && Takes(t[0], dot, exp)
    ensures ScanDigits(t, digit, dot, exp)
         == ScanDigits(t[TurnLength(t)..], digit || IsDigit(t[0]), dot || t[0] == '.', exp || IsExpMark(t[0])).Longer(TurnLength(t))
  {
  }

  lemma TakesNothing(t: string, digit: bool, dot: bool, exp: bool)
    requires t == [] || !Takes(t[0], dot, exp)
    ensures ScanDigits(t, digit, dot, exp) == NumScan(0, digit, dot, exp)
  {
  }

  lemma TurnOfPrefix(t: string, n: nat)
    requires t != [] && TurnLength(t) <= n <= |t|
    ensures TurnLength(t[..n]) == TurnLength(t)
  {
  }

  lemma {:induction false} ScanDigitsStops(tok: string, t: string, digit: bool, dot: bool, exp: bool)
    requires Delimited(t)
    requires ScanDigits(tok, digit, dot, exp).len == |tok|
    ensures ScanDigits(tok + t, digit, dot, exp) == ScanDigits(tok, digit, dot, exp)
  {
    if tok == [] {
      assert tok + t == t;
    } else {
      hide ScanDigits;
      if !Takes(tok[0], dot, exp) {
        TakesNothing(tok, digit, dot, exp);
      }
      var k := TurnLength(tok);
      assert TurnLength(tok + t) == k && (tok + t)[0] == tok[0];
      hide TurnLength, Takes, IsDigit, IsExpMark, Delimited;
      var digit', dot', exp' := digit || IsDigit(tok[0]), dot || tok[0] == '.', exp || IsExpMark(tok[0]);
      assert (tok + t)[k..] == tok[k..] + t;
      TakesOne(tok, digit, dot, exp);
      TakesOne(tok + t, digit, dot, exp);
      ScanDigitsStops(tok[k..], t, digit', dot', exp');
    }
  }

  lemma NumberTokenStops(tok: string, t: string)
    requires Delimited(t) && IsNumberToken(tok)
    ensures ScanNumber(tok + t) == ScanNumber(tok)
    ensures (tok + t)[..ScanNumber(tok + t).len] == tok
  {
    assert tok != [];
    var k := SignLength(tok);
    assert (tok + t)[k..] == tok[k..] + t;
    ScanDigitsStops(tok[k..], t, false, false, false);
  }

  lemma {:induction false} DigitsAreTaken(s: string, digit: bool)
    requires AllDigits(s)
    ensures ScanDigits(s, digit, false, false) == NumScan(|s|, digit || s != [], false, false)
  {
    if s != [] {
      DigitsAreTaken(s[1..], true);
    }
  }

  lemma IntTextIsToken(n: int)
    ensures IsNumberToken(IntText(n)) && !IsRealToken(IntText(n))
  {
    var s := IntText(n);
    DigitsAreTaken(s[SignLength(s)..], false);
  }

  lemma {:induction false} ScanDigitsOfPrefix(t: string, digit: bool, dot: bool, exp: bool)
    ensures var scan := ScanDigits(t, digit, dot, exp);
      ScanDigits(t[..scan.len], digit, dot, exp) == scan
  {
    hide ScanDigits, TurnLength, Takes, IsDigit, IsExpMark;
    if t == [] || !Takes(t[0], dot, exp) {
      TakesNothing(t, digit, dot, exp);
      TakesNothing(t[..0], digit, dot, exp);
    } else {
      var k := TurnLength(t);
      var digit', dot', exp' := digit || IsDigit(t[0]), dot || t[0] == '.', exp || IsExpMark(t[0]);
      TakesOne(t, digit, dot, exp);
      ScanDigitsOfPrefix(t[k..], digit', dot', exp');
      var n := k + ScanDigits(t[k..], digit', dot', exp').len;
      TurnOfPrefix(t, n);
      TakesOne(t[..n], digit, dot, exp);
      assert t[..n][k..] == t[k..][..n - k];
    }
  }

  /** What a scan with a digit takes is a number token, of the same kind. */
  lemma ScannedIsToken(t: string)
    ensures var scan := ScanNumber(t);
      ScanNumber(t[..scan.len]) == scan && (scan.digit ==> IsNumberToken(t[..scan.len]))
  {
    var k, scan := SignLength(t), ScanNumber(t);
    ScanDigitsOfPrefix(t[k..], false, false, false);
    assert t[..scan.len][k..] == t[k..][..scan.len - k];
    if scan.len == k {
      assert t[k..][..0] == [];
    }
  }

  /** The first character of a number token opens no other kind of value. */
  lemma NumberTokenStarts(tok: string)
    requires IsNumberToken(tok)
    ensures tok != [] && !IsSpace(tok[0])
    ensures tok[0] !in "{[\"tfn]},:"
  {
    assert tok != [];
  }
}
