/** Text handling shared by the parser and the formatter: whitespace, comma-separated
    fields and decimal integers. */
module Text {
  import opened Messages

  predicate IsSpace(c: char) {
    c == ' ' || c == '\t' || c == '\r' || c == '\n'
  }

  predicate AllSpace(s: string) {
    forall i :: 0 <= i < |s| ==> IsSpace(s[i])
  }

  /** No whitespace at either end. */
  predicate Tight(s: string) {
    s == "" || (!IsSpace(s[0]) && !IsSpace(s[|s| - 1]))
  }

  function TrimLeft(s: string): string {
    if s != "" && IsSpace(s[0]) then TrimLeft(s[1..]) else s
  }

  function TrimRight(s: string): string {
    if s != "" && IsSpace(s[|s| - 1]) then TrimRight(s[..|s| - 1]) else s
  }

  function Trim(s: string): string {
    TrimRight(TrimLeft(s))
  }

  lemma {:induction false} TrimLeftPadded(l: string, s: string)
    requires AllSpace(l) && (s == "" || !IsSpace(s[0]))
    ensures TrimLeft(l + s) == s
  {
    if l == "" {
      assert l + s == s;
    } else {
      assert (l + s)[1..] == l[1..] + s;
      TrimLeftPadded(l[1..], s);
    }
  }

  lemma {:induction false} TrimRightPadded(s: string, r: string)
    requires AllSpace(r) && (s == "" || !IsSpace(s[|s| - 1]))
    ensures TrimRight(s + r) == s
  {
    if r == "" {
      assert s + r == s;
    } else {
      assert (s + r)[..|s + r| - 1] == s + r[..|r| - 1];
      TrimRightPadded(s, r[..|r| - 1]);
    }
  }

  /** Trimming finds exactly the tight core, whatever whitespace surrounds it. */
  lemma TrimPadded(l: string, s: string, r: string)
    requires AllSpace(l) && AllSpace(r) && Tight(s)
    ensures Trim(l + s + r) == s
  {
    if s == "" {
      TrimLeftPadded(l + r, "");
      assert l + s + r == l + r + "";
    } else {
      assert l + s + r == l + (s + r);
      assert (s + r)[0] == s[0];
      TrimLeftPadded(l, s + r);
      TrimRightPadded(s, r);
    }
  }

  function FindComma(s: string): (i: nat)
    ensures i <= |s| && ',' !in s[..i] && (i < |s| ==> s[i] == ',')
  {
    if s == "" || s[0] == ',' then 0
    else
      var i := FindComma(s[1..]);
      assert s[..i + 1] == [s[0]] + s[1..][..i];
      i + 1
  }

  /** All comma-separated pieces; the empty text has one empty piece. */
  function Split(s: string): (pieces: seq<string>)
    ensures |pieces| >= 1
    decreases |s|
  {
    var i := FindComma(s);
    if i == |s| then [s] else [s[..i]] + Split(s[i + 1..])
  }

  lemma FindCommaAt(a: string, b: string)
    requires ',' !in a
    ensures FindComma(a + "," + b) == |a|
  {
    var s := a + "," + b;
    var i := FindComma(s);
    assert s[|a|] == ',' && s[..|a|] == a;
    assert forall j :: 0 <= j < i ==> s[j] in s[..i];
    assert forall j :: 0 <= j < |a| ==> s[j] in a;
  }

  lemma SplitCons(a: string, b: string)
    requires ',' !in a
    ensures Split(a + "," + b) == [a] + Split(b)
  {
    FindCommaAt(a, b);
    var s := a + "," + b;
    assert s[..|a|] == a && s[|a| + 1..] == b;
  }

  lemma SplitLast(a: string)
    requires ',' !in a
    ensures Split(a) == [a]
  {
    assert forall j :: 0 <= j < |a| ==> a[j] in a;
  }

  function Join(pieces: seq<string>): string {
    if |pieces| == 0 then ""
    else if |pieces| == 1 then pieces[0]
    else pieces[0] + "," + Join(pieces[1..])
  }

  /** Splitting undoes joining as long as no piece holds a comma. */
  lemma {:induction false} SplitJoin(pieces: seq<string>)
    requires |pieces| >= 1 && forall i :: 0 <= i < |pieces| ==> ',' !in pieces[i]
    ensures Split(Join(pieces)) == pieces
  {
    if |pieces| == 1 {
      SplitLast(pieces[0]);
    } else {
      SplitCons(pieces[0], Join(pieces[1..]));
      SplitJoin(pieces[1..]);
    }
  }

  predicate IsDigit(c: char) {
    '0' <= c <= '9'
  }

  predicate AllDigits(s: string) {
    forall i :: 0 <= i < |s| ==> IsDigit(s[i])
  }

  function DigitChar(d: nat): char
    requires d < 10
  {
    '0' + d as char
  }

  function DigitValue(c: char): nat
    requires IsDigit(c)
  {
    (c - '0') as nat
  }

  function DecimalValue(s: string): nat
    requires AllDigits(s)
  {
    if s == "" then 0 else DecimalValue(s[..|s| - 1]) * 10 + DigitValue(s[|s| - 1])
  }

  function Digits(n: nat): string {
    if n < 10 then [DigitChar(n)] else Digits(n / 10) + [DigitChar(n % 10)]
  }

  /** Decimal rendering of an integer. */
  function ToText(n: int): string {
    if n < 0 then "-" + Digits(-n) else Digits(n)
  }

  /** Strict integer parse: an optional minus, then nothing but digits, in the range of the machine's type. */
  function ParseInt(s: string): Option<int> {
    var negative := s != "" && s[0] == '-';
    var digits := if negative then s[1..] else s;
    if digits == "" || !AllDigits(digits) then None
    else
      var magnitude: int := DecimalValue(digits);
      var value := if negative then -magnitude else magnitude;
      if InInt64(value) then Some(value) else None
  }

  lemma {:induction false} DigitsAreDecimal(n: nat)
    ensures |Digits(n)| >= 1 && AllDigits(Digits(n)) && DecimalValue(Digits(n)) == n
  {
    if n >= 10 {
      DigitsAreDecimal(n / 10);
      var front := Digits(n / 10);
      assert Digits(n)[..|Digits(n)| - 1] == front;
    } else {
      assert Digits(n)[..|Digits(n)| - 1] == "";
    }
  }

  /** Rendered integers read back, down to the smallest one. */
  lemma IntRoundTrip(n: int)
    requires InInt64(n)
    ensures ParseInt(ToText(n)) == Some(n)
  {
    hide ParseInt, Digits, DecimalValue, AllDigits;
    var magnitude := if n < 0 then -n else n;
    DigitsAreDecimal(magnitude);
    assert ToText(n) == (if n < 0 then "-" else "") + Digits(magnitude);
    ParseSigned(ToText(n), n < 0, Digits(magnitude));
  }

  /** A rendered integer holds neither commas, whitespace nor line breaks. */
  lemma IntTextIsPlain(n: int)
    ensures ',' !in ToText(n) && '\n' !in ToText(n) && ToText(n) != "" && Tight(ToText(n))
  {
    DigitsAreDecimal(if n < 0 then -n else n);
    var digits := Digits(if n < 0 then -n else n);
    forall c | c in ToText(n)
      ensures c == '-' || IsDigit(c)
    {
      if c in digits {
        var i :| 0 <= i < |digits| && digits[i] == c;
      }
    }
    assert ToText(n)[0] in ToText(n) && ToText(n)[|ToText(n)| - 1] in ToText(n);
  }

  // ---- trimming a line does not disturb its fields

  lemma {:induction false} TrimLeftTight(s: string)
    ensures TrimLeft(s) == "" || !IsSpace(TrimLeft(s)[0])
    ensures |TrimLeft(s)| <= |s|
  {
    if s != "" && IsSpace(s[0]) {
      TrimLeftTight(s[1..]);
    }
  }

  lemma {:induction false} TrimRightTight(s: string)
    ensures var r := TrimRight(s);
      (r == "" || !IsSpace(r[|r| - 1])) && r <= s
  {
    if s != "" && IsSpace(s[|s| - 1]) {
      TrimRightTight(s[..|s| - 1]);
    }
  }

  lemma {:induction false} TrimTight(s: string)
    ensures Tight(Trim(s))
  {
    TrimLeftTight(s);
    TrimRightTight(TrimLeft(s));
  }

  lemma {:induction false} TrimLeftSnoc(s: string, c: char)
    requires IsSpace(c)
    ensures TrimLeft(s + [c]) == if TrimLeft(s) == "" then "" else TrimLeft(s) + [c]
  {
    if s == "" {
      assert (s + [c])[1..] == "";
    } else if IsSpace(s[0]) {
      assert (s + [c])[1..] == s[1..] + [c];
      TrimLeftSnoc(s[1..], c);
    }
  }

  /** Whitespace at either end of a piece does not show once it is trimmed. */
  lemma {:induction false} TrimIgnoresSpace(s: string, c: char)
    requires IsSpace(c)
    ensures Trim([c] + s) == Trim(s) && Trim(s + [c]) == Trim(s)
  {
    assert ([c] + s)[1..] == s;
    TrimLeftSnoc(s, c);
    var t := TrimLeft(s);
    if t != "" {
      assert (t + [c])[..|t + [c]| - 1] == t;
    }
  }

  /** A text with a comma, cut at the first one. */
  lemma CutAtComma(s: string) returns (front: string, back: string)
    requires ',' in s
    ensures ',' !in front && s == front + "," + back && |back| < |s|
  {
    var i := FindComma(s);
    assert s[..|s|] == s;
    front, back := s[..i], s[i + 1..];
    assert s == s[..i] + [s[i]] + s[i + 1..];
  }

  /** Dropping leading whitespace shortens the first piece only. */
  lemma {:induction false} SplitDropFirst(s: string, c: char)
    requires IsSpace(c)
    ensures var p, q := Split([c] + s), Split(s);
      |p| == |q| && p[0] == [c] + q[0] && forall i :: 1 <= i < |p| ==> p[i] == q[i]
  {
    hide Split;
    if ',' in s {
      var front, back := CutAtComma(s);
      assert [c] + s == ([c] + front) + "," + back;
      SplitCons(front, back);
      SplitCons([c] + front, back);
    } else {
      SplitLast(s);
      SplitLast([c] + s);
    }
  }

  /** Dropping trailing whitespace shortens the last piece only. */
  lemma {:induction false} SplitDropLast(s: string, c: char)
    requires IsSpace(c)
    ensures var p, q := Split(s + [c]), Split(s);
      |p| == |q| && p[|p| - 1] == q[|q| - 1] + [c] && forall i :: 0 <= i < |p| - 1 ==> p[i] == q[i]
    decreases |s|
  {
    hide Split;
    if ',' in s {
      var front, back := CutAtComma(s);
      assert s + [c] == front + "," + (back + [c]);
      SplitCons(front, back);
      SplitCons(front, back + [c]);
      SplitDropLast(back, c);
    } else {
      SplitLast(s);
      SplitLast(s + [c]);
    }
  }

  /** Two texts with the same fields. */
  predicate SameFields(p: seq<string>, q: seq<string>) {
    |p| == |q| && forall i :: 0 <= i < |p| ==> Trim(p[i]) == Trim(q[i])
  }

  lemma SameFieldsChain(p: seq<string>, q: seq<string>, r: seq<string>)
    requires SameFields(p, q) && SameFields(q, r)
    ensures SameFields(p, r)
  {
    hide Trim;
  }

  /** One whitespace character in front, or behind, leaves the fields alone. */
  lemma SpaceKeepsFields(s: string, c: char)
    requires IsSpace(c)
    ensures SameFields(Split(s), Split([c] + s)) && SameFields(Split(s), Split(s + [c]))
  {
    hide Split, Trim, IsSpace;
    var q := Split(s);
    SplitDropFirst(s, c);
    SplitDropLast(s, c);
    TrimIgnoresSpace(q[0], c);
    TrimIgnoresSpace(q[|q| - 1], c);
  }

  lemma {:induction false} TrimLeftFields(s: string)
    ensures SameFields(Split(TrimLeft(s)), Split(s))
  {
    hide Split, SameFields;
    if s != "" && IsSpace(s[0]) {
      TrimLeftFields(s[1..]);
      SpaceKeepsFields(s[1..], s[0]);
      assert s == [s[0]] + s[1..];
      SameFieldsChain(Split(TrimLeft(s)), Split(s[1..]), Split(s));
    } else {
      SameFieldsSelf(Split(s));
    }
  }

  lemma SameFieldsSelf(p: seq<string>)
    ensures SameFields(p, p)
  {
  }

  lemma {:induction false} TrimRightFields(s: string)
    ensures SameFields(Split(TrimRight(s)), Split(s))
  {
    hide Split, SameFields;
    if s != "" && IsSpace(s[|s| - 1]) {
      var t, c := s[..|s| - 1], s[|s| - 1];
      assert s == t + [c];
      TrimRightFields(t);
      SpaceKeepsFields(t, c);
      SameFieldsChain(Split(TrimRight(s)), Split(t), Split(s));
    } else {
      SameFieldsSelf(Split(s));
    }
  }

  lemma {:induction false} TrimKeepsFields(s: string)
    ensures SameFields(Split(Trim(s)), Split(s))
  {
    hide Split;
    TrimLeftFields(s);
    TrimRightFields(TrimLeft(s));
  }

  /** In a tight text the first piece starts, and the last piece ends, without whitespace. */
  lemma {:induction false} TightPieces(s: string)
    ensures var p := Split(s);
      && (p[0] != "" ==> s != "" && p[0][0] == s[0])
      && (p[|p| - 1] != "" ==> s != "" && p[|p| - 1][|p[|p| - 1]| - 1] == s[|s| - 1])
    decreases |s|
  {
    hide Split;
    if ',' in s {
      var front, back := CutAtComma(s);
      SplitCons(front, back);
      TightPieces(back);
    } else {
      SplitLast(s);
    }
  }

  /** What is left of a line after trimming, piece by piece, when its fields are known not to be
      empty at the front: it starts with the first field, and a blank last piece is gone. */
  lemma TrimmedPieces(s: string)
    requires Trim(Split(s)[0]) != ""
    ensures var t := Trim(s);
      var p := Split(t);
      && t != "" && SameFields(p, Split(s)) && t[0] == Trim(Split(s)[0])[0]
      && (Trim(Split(s)[|p| - 1]) == "" ==> p[|p| - 1] == "")
  {
    hide Split;
    var t := Trim(s);
    var p := Split(t);
    TrimKeepsFields(s);
    TrimTight(s);
    TightPieces(t);
    EmptyTrims();
    assert p[0] != "" && t != "";
    TrimStarts(p[0]);
    if p[|p| - 1] != "" {
      TrimEnds(p[|p| - 1]);
    }
  }

  lemma EmptyTrims()
    ensures Trim("") == ""
  {
  }

  lemma {:induction false} TrimStarts(s: string)
    requires s != "" && !IsSpace(s[0])
    ensures Trim(s) != "" && Trim(s)[0] == s[0]
  {
    TrimRightTight(s);
    TrimRightNonEmpty(s);
  }

  lemma {:induction false} TrimRightNonEmpty(s: string)
    requires s != "" && !IsSpace(s[0])
    ensures TrimRight(s) != ""
  {
    if IsSpace(s[|s| - 1]) {
      TrimRightNonEmpty(s[..|s| - 1]);
    }
  }

  lemma {:induction false} TrimEnds(s: string)
    requires s != "" && !IsSpace(s[|s| - 1])
    ensures Trim(s) != ""
  {
    if IsSpace(s[0]) {
      TrimEnds(s[1..]);
    }
  }

  // ---- trimming, splitting and numerals, characterised by the characters themselves

  predicate Blank(s: string) {
    forall i :: 0 <= i < |s| ==> s[i] == ' ' || s[i] == '\t' || s[i] == '\r' || s[i] == '\n'
  }

  ghost predicate Padded(s: string, l: string, core: string, r: string) {
    s == l + core + r && Blank(l) && Blank(r)
  }

  lemma {:induction false} TrimLeftDrops(s: string) returns (l: string)
    ensures s == l + TrimLeft(s) && Blank(l)
  {
    if s != "" && IsSpace(s[0]) {
      var rest := TrimLeftDrops(s[1..]);
      l := [s[0]] + rest;
    } else {
      l := "";
    }
  }

  lemma {:induction false} TrimRightDrops(s: string) returns (r: string)
    ensures s == TrimRight(s) + r && Blank(r)
  {
    if s != "" && IsSpace(s[|s| - 1]) {
      var rest := TrimRightDrops(s[..|s| - 1]);
      r := rest + [s[|s| - 1]];
    } else {
      r := "";
    }
  }

  /** Trimming takes off blanks, tabs, carriage returns and line feeds, as many as there are at
      either end and nothing else. */
  lemma TrimIff(s: string, core: string)
    ensures Trim(s) == core <==>
      && (exists l, r :: Padded(s, l, core, r))
      && (core != "" ==> !Blank(core[..1]) && !Blank(core[|core| - 1..]))
  {
    assert core != "" ==> core[..1] == [core[0]] && core[|core| - 1..] == [core[|core| - 1]];
    if Trim(s) == core {
      var l := TrimLeftDrops(s);
      var r := TrimRightDrops(TrimLeft(s));
      assert Padded(s, l, core, r);
      TrimTight(s);
    }
    if l, r :| Padded(s, l, core, r) && (core != "" ==> !Blank(core[..1]) && !Blank(core[|core| - 1..])) {
      TrimPadded(l, core, r);
    }
  }

  lemma {:induction false} SplitJoins(s: string)
    ensures Join(Split(s)) == s && forall i :: 0 <= i < |Split(s)| ==> ',' !in Split(s)[i]
    decreases |s|
  {
    if ',' in s {
      var front, back := CutAtComma(s);
      hide Split;
      SplitCons(front, back);
      SplitJoins(back);
      assert Split(s)[1..] == Split(back);
    } else {
      SplitLast(s);
    }
  }

  /** The pieces of a text are the one way to write it as comma-free pieces with commas between. */
  lemma SplitIff(s: string, pieces: seq<string>)
    ensures Split(s) == pieces <==>
      |pieces| >= 1 && Join(pieces) == s && forall i :: 0 <= i < |pieces| ==> ',' !in pieces[i]
  {
    SplitJoins(s);
    if |pieces| >= 1 && forall i :: 0 <= i < |pieces| ==> ',' !in pieces[i] {
      SplitJoin(pieces);
    }
  }

  function Zeros(n: nat): string {
    seq(n, _ => '0')
  }

  /** An integer of the machine's type as text: a minus sign if negative, any leading zeros, and its
      digits; zero may carry the sign. */
  ghost predicate Numeral(s: string, n: int) {
    InInt64(n) && exists minus: bool, zeros: nat :: SpeltWith(s, n, minus, zeros)
  }

  ghost predicate SpeltWith(s: string, n: int, minus: bool, zeros: nat) {
    && s == (if minus then "-" else "") + Zeros(zeros) + Digits(if n < 0 then -n else n)
    && (n < 0 ==> minus) && (n > 0 ==> !minus)
  }

  /** The digits of a number have no leading zero, save for zero itself. */
  lemma {:induction false} DigitsCanonical(n: nat)
    ensures |Digits(n)| >= 1 && (if n == 0 then Digits(n) == "0" else '1' <= Digits(n)[0] <= '9')
  {
    if n >= 10 {
      DigitsCanonical(n / 10);
    }
  }

  /** The rendering of an integer carries a minus sign if and only if it is negative, and no leading zero. */
  lemma TextIsShortest(n: int)
    ensures var t := ToText(n);
      if n == 0 then t == "0"
      else if n > 0 then t != "" && '1' <= t[0] <= '9'
      else |t| >= 2 && t[0] == '-' && '1' <= t[1] <= '9'
  {
    DigitsCanonical(if n < 0 then -n else n);
  }

  lemma {:induction false} LeadingZeros(zeros: nat, n: nat)
    ensures AllDigits(Zeros(zeros) + Digits(n)) && DecimalValue(Zeros(zeros) + Digits(n)) == n
    decreases zeros, n
  {
    var s := Zeros(zeros) + Digits(n);
    DigitsAreDecimal(n);
    if n >= 10 {
      LeadingZeros(zeros, n / 10);
      assert s == (Zeros(zeros) + Digits(n / 10)) + [DigitChar(n % 10)];
      assert s[..|s| - 1] == Zeros(zeros) + Digits(n / 10);
    } else if zeros > 0 {
      LeadingZeros(zeros - 1, 0);
      assert s[..|s| - 1] == Zeros(zeros - 1) + Digits(0);
    } else {
      assert s == Digits(n);
    }
  }

  /** One more digit behind a digit string that is zeros and a number's digits. */
  lemma DigitSnoc(front: string, zeros: nat, v: nat, c: char) returns (z: nat)
    requires front == Zeros(zeros) + Digits(v) && IsDigit(c)
    ensures front + [c] == Zeros(z) + Digits(10 * v + DigitValue(c))
  {
    assert DigitChar(DigitValue(c)) == c;
    if v == 0 {
      z := zeros + 1;
      assert Zeros(zeros) + "0" == Zeros(zeros + 1);
    } else {
      z := zeros;
      var n := 10 * v + DigitValue(c);
      assert n / 10 == v && n % 10 == DigitValue(c);
      assert front + [c] == Zeros(zeros) + (Digits(v) + [c]);
    }
  }

  /** Every digit string is some zeros and the digits of its value. */
  lemma {:induction false} DigitStrings(s: string) returns (zeros: nat)
    requires s != "" && AllDigits(s)
    ensures s == Zeros(zeros) + Digits(DecimalValue(s))
  {
    hide Zeros;
    var front, c := s[..|s| - 1], s[|s| - 1];
    assert s == front + [c];
    if front == "" {
      zeros := DigitAlone(c);
    } else {
      hide Digits;
      var z := DigitStrings(front);
      zeros := DigitSnoc(front, z, DecimalValue(front), c);
    }
  }

  lemma DigitAlone(c: char) returns (zeros: nat)
    requires IsDigit(c)
    ensures [c] == Zeros(zeros) + Digits(DigitValue(c))
  {
    zeros := 0;
    assert DigitChar(DigitValue(c)) == c;
  }

  /** What the parse makes of an optional minus sign and digits. */
  lemma ParseSigned(s: string, minus: bool, digits: string)
    requires digits != "" && AllDigits(digits) && s == (if minus then "-" else "") + digits
    ensures var value: int := if minus then -(DecimalValue(digits) as int) else DecimalValue(digits);
      ParseInt(s) == if InInt64(value) then Some(value) else None
  {
    hide DecimalValue;
    if minus {
      assert s[1..] == digits;
    } else {
      assert s == digits && IsDigit(s[0]);
    }
  }

  lemma NumeralParses(s: string, n: int)
    requires Numeral(s, n)
    ensures ParseInt(s) == Some(n)
  {
    hide ParseInt, Digits, Zeros, DecimalValue, AllDigits;
    var minus: bool, zeros: nat :| SpeltWith(s, n, minus, zeros);
    var magnitude := if n < 0 then -n else n;
    LeadingZeros(zeros, magnitude);
    DigitsCanonical(magnitude);
    var digits := Zeros(zeros) + Digits(magnitude);
    var sign := if minus then "-" else "";
    assert s == sign + digits;
    ParseSigned(s, minus, digits);
  }

  lemma Spelling(s: string, n: int, minus: bool, zeros: nat, digits: string)
    requires digits == Zeros(zeros) + Digits(if n < 0 then -n else n)
    requires s == (if minus then "-" else "") + digits && (n < 0 ==> minus) && (n > 0 ==> !minus)
    ensures SpeltWith(s, n, minus, zeros)
  {
    hide Digits, Zeros;
    var sign := if minus then "-" else "";
    assert s == sign + Zeros(zeros) + Digits(if n < 0 then -n else n);
  }

  lemma ParsedIsNumeral(s: string, n: int)
    requires ParseInt(s) == Some(n)
    ensures Numeral(s, n)
  {
    var minus := s != "" && s[0] == '-';
    var digits := if minus then s[1..] else s;
    var zeros := DigitStrings(digits);
    hide Digits, Zeros, DecimalValue, AllDigits;
    var magnitude := if n < 0 then -n else n;
    assert digits == Zeros(zeros) + Digits(magnitude);
    Spelling(s, n, minus, zeros, digits);
  }

  /** The parse accepts the numerals of the machine's integers, each with its own value, and nothing else. */
  lemma ParseIntIff(s: string, n: int)
    ensures ParseInt(s) == Some(n) <==> Numeral(s, n)
  {
    hide ParseInt, Numeral;
    if Numeral(s, n) {
      NumeralParses(s, n);
    }
    if ParseInt(s) == Some(n) {
      ParsedIsNumeral(s, n);
    }
  }

  lemma ParseIntRefuses(s: string)
    ensures ParseInt(s).None? <==> forall n :: !Numeral(s, n)
  {
    hide ParseInt, Numeral;
    if ParseInt(s).Some? {
      ParseIntIff(s, ParseInt(s).value);
    }
    forall n | Numeral(s, n)
      ensures ParseInt(s).Some?
    {
      ParseIntIff(s, n);
    }
  }
}
