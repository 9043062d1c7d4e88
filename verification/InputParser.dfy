/** Parsing the input wire format, one line at a time. */
module InputParser {
  import opened Messages
  import opened Text

  /** What a bad line is reported as. */
  datatype Diagnostic =
    | IllFormedAdd(line: string)
    | InvalidSide(token: string, line: string)
    | InvalidTif(token: string, line: string)
    | IllFormedCancel(line: string)
    | UnknownMessage(opcode: string)

  datatype ParseResult =
    | Parsed(event: InputEvent)
    | Skipped
    | Failed(diagnostic: Diagnostic)

  function ParseSide(s: string): Option<Side> {
    if s == "BUY" then Some(Buy) else if s == "SLL" then Some(Sell) else None
  }

  function ParseTif(s: string): Option<Tif> {
    if s == "GTC" then Some(Gtc) else if s == "IOC" then Some(Ioc) else if s == "FOK" then Some(Fok) else None
  }

  // ---- what a line means, in terms of its comma-separated pieces

  /** The i-th field; a field that is not there reads as empty. */
  function Field(pieces: seq<string>, i: nat): string {
    if i < |pieces| then Trim(pieces[i]) else ""
  }

  /** No field beyond the first n, except one empty piece after a trailing comma. */
  predicate NothingBeyond(pieces: seq<string>, n: nat) {
    |pieces| <= n || (|pieces| == n + 1 && pieces[n] == "")
  }

  function MeaningOfAdd(trimmed: string, pieces: seq<string>): ParseResult {
    var id, quantity, price := ParseInt(Field(pieces, 1)), ParseInt(Field(pieces, 3)), ParseInt(Field(pieces, 4));
    var side, tif := Field(pieces, 2), Field(pieces, 5);
    if id.None? || quantity.None? || price.None? || tif == "" || !NothingBeyond(pieces, 6) then
      Failed(IllFormedAdd(trimmed))
    else if ParseSide(side).None? then Failed(InvalidSide(side, trimmed))
    else if ParseTif(tif).None? then Failed(InvalidTif(tif, trimmed))
    else Parsed(AddOrder(id.value, ParseSide(side).value, quantity.value, price.value, ParseTif(tif).value))
  }

  function MeaningOfCancel(trimmed: string, pieces: seq<string>): ParseResult {
    var id := ParseInt(Field(pieces, 1));
    if id.None? || !NothingBeyond(pieces, 2) then Failed(IllFormedCancel(trimmed))
    else Parsed(CancelOrder(id.value))
  }

  function Meaning(line: string): ParseResult {
    var trimmed := Trim(line);
    if trimmed == "" || trimmed[0] == '#' then Skipped
    else
      var pieces := Split(trimmed);
      var opcode := Field(pieces, 0);
      if opcode == "ADD" then MeaningOfAdd(trimmed, pieces)
      else if opcode == "CXL" then MeaningOfCancel(trimmed, pieces)
      else Failed(UnknownMessage(opcode))
  }

  function EventsOf(lines: seq<string>): seq<InputEvent> {
    if lines == [] then []
    else (if Meaning(lines[0]).Parsed? then [Meaning(lines[0]).event] else []) + EventsOf(lines[1..])
  }

  function DiagnosticsOf(lines: seq<string>): seq<Diagnostic> {
    if lines == [] then []
    else (if Meaning(lines[0]).Failed? then [Meaning(lines[0]).diagnostic] else []) + DiagnosticsOf(lines[1..])
  }

  // ---- the same in terms of literal tokens and numerals

  ghost predicate CommentAfter(line: string, blanks: string, rest: string) {
    line == blanks + rest && Blank(blanks) && (rest == "" || rest[0] == '#')
  }

  /** Nothing but blanks, or blanks and then a hash sign. */
  ghost predicate BlankOrComment(line: string) {
    exists blanks, rest :: CommentAfter(line, blanks, rest)
  }

  ghost predicate IsNumeral(s: string) {
    exists n :: Numeral(s, n)
  }

  /** Exactly n pieces, or one more that is empty. */
  predicate HasFields(pieces: seq<string>, n: nat) {
    |pieces| == n || (|pieces| == n + 1 && pieces[n] == "")
  }

  /** All fields of an add are there and its numbers are numerals. */
  ghost predicate AddShaped(pieces: seq<string>) {
    && HasFields(pieces, 6)
    && IsNumeral(Trim(pieces[1])) && IsNumeral(Trim(pieces[3])) && IsNumeral(Trim(pieces[4]))
    && Trim(pieces[5]) != ""
  }

  /** What each result says about the line it was given for. */
  ghost predicate Obeys(line: string, r: ParseResult) {
    var text := Trim(line);
    var pieces := Split(text);
    var opcode := Trim(pieces[0]);
    match r
    case Skipped => BlankOrComment(line)
    case Parsed(e) =>
      (match e
       case AddOrder(id, side, quantity, price, tif) =>
         && HasFields(pieces, 6) && opcode == "ADD"
         && Numeral(Trim(pieces[1]), id) && Numeral(Trim(pieces[3]), quantity) && Numeral(Trim(pieces[4]), price)
         && Trim(pieces[2]) == (match side case Buy => "BUY" case Sell => "SLL")
         && Trim(pieces[5]) == (match tif case Gtc => "GTC" case Ioc => "IOC" case Fok => "FOK")
       case CancelOrder(id) => HasFields(pieces, 2) && opcode == "CXL" && Numeral(Trim(pieces[1]), id)
       case EndOfInput => false)
    case Failed(d) =>
      match d
      case IllFormedAdd(shown) => shown == text && opcode == "ADD" && !AddShaped(pieces)
      case InvalidSide(token, shown) =>
        && shown == text && opcode == "ADD" && AddShaped(pieces)
        && token == Trim(pieces[2]) && token != "BUY" && token != "SLL"
      case InvalidTif(token, shown) =>
        && shown == text && opcode == "ADD" && AddShaped(pieces)
        && (Trim(pieces[2]) == "BUY" || Trim(pieces[2]) == "SLL")
        && token == Trim(pieces[5]) && token != "GTC" && token != "IOC" && token != "FOK"
      case IllFormedCancel(shown) =>
        shown == text && opcode == "CXL" && !(HasFields(pieces, 2) && IsNumeral(Trim(pieces[1])))
      case UnknownMessage(shown) =>
        !BlankOrComment(line) && shown == opcode && opcode != "ADD" && opcode != "CXL"
  }

  lemma BlankOrCommentIff(line: string)
    ensures BlankOrComment(line) <==> Trim(line) == "" || Trim(line)[0] == '#'
  {
    var l := TrimLeftDrops(line);
    TrimRightTight(TrimLeft(line));
    if Trim(line) == "" {
      var r := TrimRightDrops(TrimLeft(line));
      assert CommentAfter(line, l + r, "");
    } else if Trim(line)[0] == '#' {
      assert CommentAfter(line, l, TrimLeft(line));
    }
    if blanks, rest :| CommentAfter(line, blanks, rest) {
      TrimLeftPadded(blanks, rest);
      if rest != "" {
        TrimRightNonEmpty(rest);
        TrimRightTight(rest);
      }
    }
  }

  /** A line with a known opcode is no comment. */
  lemma OpcodeLeads(text: string)
    requires Trim(Split(text)[0]) != ""
    requires Tight(text)
    ensures text != "" && Trim(Split(text)[0])[0] == text[0]
  {
    hide Split;
    TightPieces(text);
    EmptyTrims();
    TrimStarts(Split(text)[0]);
  }

  lemma NumberField(pieces: seq<string>, i: nat)
    ensures ParseInt(Field(pieces, i)).Some? <==> i < |pieces| && IsNumeral(Trim(pieces[i]))
    ensures i < |pieces| ==> forall n :: ParseInt(Field(pieces, i)) == Some(n) <==> Numeral(Trim(pieces[i]), n)
  {
    hide Trim, Numeral;
    if i < |pieces| {
      ParseIntRefuses(Trim(pieces[i]));
      forall n
        ensures ParseInt(Field(pieces, i)) == Some(n) <==> Numeral(Trim(pieces[i]), n)
      {
        ParseIntIff(Trim(pieces[i]), n);
      }
    }
  }

  /** An add line means what its literal tokens say. */
  lemma AddObeys(line: string, r: ParseResult)
    requires Trim(Split(Trim(line))[0]) == "ADD" && !BlankOrComment(line)
    ensures MeaningOfAdd(Trim(line), Split(Trim(line))) == r <==> Obeys(line, r)
  {
    hide Trim, Split, Numeral, IsNumeral, ParseInt, BlankOrComment;
    var pieces := Split(Trim(line));
    NumberField(pieces, 1);
    NumberField(pieces, 3);
    NumberField(pieces, 4);
  }

  lemma CancelObeys(line: string, r: ParseResult)
    requires Trim(Split(Trim(line))[0]) == "CXL" && !BlankOrComment(line)
    ensures MeaningOfCancel(Trim(line), Split(Trim(line))) == r <==> Obeys(line, r)
  {
    hide Trim, Split, Numeral, IsNumeral, ParseInt, BlankOrComment;
    NumberField(Split(Trim(line)), 1);
  }

  /** Every line and every result: the line is given that result if and only if it obeys it. */
  lemma MeaningIff(line: string, r: ParseResult)
    ensures Meaning(line) == r <==> Obeys(line, r)
  {
    BlankOrCommentIff(line);
    TrimTight(line);
    var text := Trim(line);
    hide Trim, Split, Numeral, IsNumeral, MeaningOfAdd, MeaningOfCancel, BlankOrComment, Tight;
    var opcode := Trim(Split(text)[0]);
    if opcode != "" {
      OpcodeLeads(text);
    }
    if opcode == "ADD" {
      AddObeys(line, r);
    } else if opcode == "CXL" {
      CancelObeys(line, r);
    }
  }

  // ---- the cursor-based parser

  /** Trim a view from the front, then from the back. */
  method TrimView(s: string) returns (view: string)
    ensures view == Trim(s)
  {
    view := s;
    while view != "" && IsSpace(view[0])
      invariant TrimLeft(view) == TrimLeft(s)
      decreases |view|
    {
      view := view[1..];
    }
    while view != "" && IsSpace(view[|view| - 1])
      invariant TrimRight(view) == Trim(s)
      decreases |view|
    {
      view := view[..|view| - 1];
    }
  }

  /** A cursor that stands at piece k of a text: it still has the pieces from k on, or is exhausted. */
  ghost predicate At(cursor: string, pieces: seq<string>, k: nat) {
    if k < |pieces| then Split(cursor) == pieces[k..] else cursor == ""
  }

  /** Take the next field off the cursor. */
  method NextField(cursor: string, ghost pieces: seq<string>, ghost k: nat) returns (field: string, rest: string)
    requires At(cursor, pieces, k)
    ensures field == Field(pieces, k)
    ensures At(rest, pieces, k + 1)
  {
    var comma := FindComma(cursor);
    if comma == |cursor| {
      field, rest := cursor, "";
    } else {
      field, rest := cursor[..comma], cursor[comma + 1..];
    }
    assert k < |pieces| ==> pieces[k] == pieces[k..][0] && pieces[k + 1..] == pieces[k..][1..];
    field := TrimView(field);
  }

  /** An exhausted cursor means nothing beyond, up to one trailing comma. */
  lemma CursorEmpty(cursor: string, pieces: seq<string>, n: nat)
    requires At(cursor, pieces, n)
    ensures cursor == "" <==> NothingBeyond(pieces, n)
  {
  }

  method ParseAdd(trimmed: string, cursor: string, ghost pieces: seq<string>) returns (r: ParseResult)
    requires At(cursor, pieces, 1)
    ensures r == MeaningOfAdd(trimmed, pieces)
  {
    hide At, Field, NothingBeyond, ParseInt;
    var idField, c1 := NextField(cursor, pieces, 1);
    var sideToken, c2 := NextField(c1, pieces, 2);
    var quantityField, c3 := NextField(c2, pieces, 3);
    var priceField, c4 := NextField(c3, pieces, 4);
    var tifToken, rest := NextField(c4, pieces, 5);
    CursorEmpty(rest, pieces, 6);
    var id, quantity, price := ParseInt(idField), ParseInt(quantityField), ParseInt(priceField);
    var side, tif := ParseSide(sideToken), ParseTif(tifToken);
    if id.None? || quantity.None? || price.None? || tifToken == "" || rest != "" {
      return Failed(IllFormedAdd(trimmed));
    }
    if side.None? {
      return Failed(InvalidSide(sideToken, trimmed));
    }
    if tif.None? {
      return Failed(InvalidTif(tifToken, trimmed));
    }
    return Parsed(AddOrder(id.value, side.value, quantity.value, price.value, tif.value));
  }

  method ParseLine(line: string) returns (r: ParseResult)
    ensures r == Meaning(line) && Obeys(line, r)
  {
    MeaningIff(line, Meaning(line));
    hide Obeys;
    var trimmed := TrimView(line);
    if trimmed == "" || trimmed[0] == '#' {
      return Skipped;
    }
    ghost var pieces := Split(trimmed);
    assert pieces[0..] == pieces;
    var opcode, cursor := NextField(trimmed, pieces, 0);
    if opcode == "ADD" {
      r := ParseAdd(trimmed, cursor, pieces);
    } else if opcode == "CXL" {
      var idField, rest := NextField(cursor, pieces, 1);
      CursorEmpty(rest, pieces, 2);
      var id := ParseInt(idField);
      if id.None? || rest != "" {
        return Failed(IllFormedCancel(trimmed));
      }
      r := Parsed(CancelOrder(id.value));
    } else {
      r := Failed(UnknownMessage(opcode));
    }
  }

  lemma StreamStep(lines: seq<string>, i: nat)
    requires i < |lines|
    ensures EventsOf(lines[i..])
         == (if Meaning(lines[i]).Parsed? then [Meaning(lines[i]).event] else []) + EventsOf(lines[i + 1..])
    ensures DiagnosticsOf(lines[i..])
         == (if Meaning(lines[i]).Failed? then [Meaning(lines[i]).diagnostic] else []) + DiagnosticsOf(lines[i + 1..])
  {
  }

  lemma StreamEnd(lines: seq<string>)
    ensures EventsOf(lines[|lines|..]) == [] && DiagnosticsOf(lines[|lines|..]) == []
  {
  }

  /** Parse every line, collecting the events handed on and the diagnostics reported. */
  method ParseStream(lines: seq<string>) returns (events: seq<InputEvent>, errors: seq<Diagnostic>)
    ensures events == EventsOf(lines) && errors == DiagnosticsOf(lines)
  {
    hide Meaning, Obeys, EventsOf, DiagnosticsOf;
    events, errors := [], [];
    assert lines[0..] == lines;
    for i := 0 to |lines|
      invariant events + EventsOf(lines[i..]) == EventsOf(lines)
      invariant errors + DiagnosticsOf(lines[i..]) == DiagnosticsOf(lines)
    {
      StreamStep(lines, i);
      var r := ParseLine(lines[i]);
      if r.Parsed? {
        events := events + [r.event];
      } else if r.Failed? {
        errors := errors + [r.diagnostic];
      }
    }
    StreamEnd(lines);
  }

  // ---- the wire format reads back

  function SideToken(side: Side): string {
    if side.Buy? then "BUY" else "SLL"
  }

  function TifToken(tif: Tif): string {
    match tif
    case Gtc => "GTC"
    case Ioc => "IOC"
    case Fok => "FOK"
  }

  function WireFields(e: InputEvent): seq<string>
    requires e.AddOrder? || e.CancelOrder?
  {
    if e.AddOrder? then
      ["ADD", ToText(e.orderId), SideToken(e.side), ToText(e.quantity), ToText(e.price), TifToken(e.tif)]
    else
      ["CXL", ToText(e.orderId)]
  }

  predicate FitsWire(e: InputEvent) {
    match e
    case AddOrder(id, _, quantity, price, _) => InInt64(id) && InInt64(quantity) && InInt64(price)
    case CancelOrder(id) => InInt64(id)
    case EndOfInput => false
  }

  /** Fields with whitespace of one's choosing around each. */
  function Pad(fields: seq<string>, left: seq<string>, right: seq<string>): (pieces: seq<string>)
    requires |fields| == |left| == |right|
    ensures |pieces| == |fields|
    ensures forall i :: 0 <= i < |fields| ==> pieces[i] == left[i] + fields[i] + right[i]
  {
    seq(|fields|, i requires 0 <= i < |fields| => left[i] + fields[i] + right[i])
  }

  ghost predicate AllBlank(pads: seq<string>) {
    forall i :: 0 <= i < |pads| ==> AllSpace(pads[i])
  }

  /** A field that survives trimming and splitting. */
  predicate CleanField(s: string) {
    s != "" && Tight(s) && ',' !in s
  }

  lemma TokensAreClean(side: Side, tif: Tif)
    ensures CleanField("ADD") && CleanField("CXL") && CleanField(SideToken(side)) && CleanField(TifToken(tif))
    ensures ParseSide(SideToken(side)) == Some(side) && ParseTif(TifToken(tif)) == Some(tif)
  {
  }

  lemma WireFieldsAreClean(e: InputEvent)
    requires FitsWire(e)
    ensures forall i :: 0 <= i < |WireFields(e)| ==> CleanField(WireFields(e)[i])
  {
    hide ToText, Tight, SideToken, TifToken;
    IntTextIsPlain(e.orderId);
    if e.AddOrder? {
      TokensAreClean(e.side, e.tif);
      IntTextIsPlain(e.quantity);
      IntTextIsPlain(e.price);
    } else {
      TokensAreClean(Buy, Gtc);
    }
  }

  lemma BlankHasNoComma(s: string)
    requires AllSpace(s)
    ensures ',' !in s
  {
  }

  /** A line carrying given fields, each with blank padding, and possibly a trailing comma. */
  ghost predicate Carries(line: string, fields: seq<string>, left: seq<string>, right: seq<string>,
                          trailing: Option<string>) {
    && |fields| == |left| == |right| && AllBlank(left) && AllBlank(right)
    && (trailing.Some? ==> AllSpace(trailing.value))
    && line == Join(Pad(fields, left, right) + if trailing.Some? then [trailing.value] else [])
  }

  /** Its trimmed form splits into exactly those fields, with nothing beyond them. */
  lemma CarriedFields(line: string, fields: seq<string>, left: seq<string>, right: seq<string>, trailing: Option<string>)
    requires |fields| >= 1 && (forall i :: 0 <= i < |fields| ==> CleanField(fields[i]))
    requires Carries(line, fields, left, right, trailing)
    ensures var t := Trim(line);
      && t != "" && fields[0] != "" && t[0] == fields[0][0]
      && (forall i :: 0 <= i < |fields| ==> Field(Split(t), i) == fields[i])
      && NothingBeyond(Split(t), |fields|)
  {
    hide Split, Join, Trim;
    var pieces := Pad(fields, left, right);
    var all := pieces + if trailing.Some? then [trailing.value] else [];
    forall i | 0 <= i < |all|
      ensures ',' !in all[i] && Trim(all[i]) == if i < |fields| then fields[i] else ""
    {
      if i < |fields| {
        BlankHasNoComma(left[i]);
        BlankHasNoComma(right[i]);
        TrimPadded(left[i], fields[i], right[i]);
      } else {
        BlankHasNoComma(trailing.value);
        TrimPadded(trailing.value, "", "");
        assert trailing.value + "" + "" == trailing.value;
      }
    }
    SplitJoin(all);
    TrimmedPieces(line);
  }

  /** Every add and cancel with machine-range fields, written with any blank padding around its
      fields and with or without a trailing comma, parses back to itself. */
  lemma WireRoundTrip(e: InputEvent, line: string, left: seq<string>, right: seq<string>, trailing: Option<string>)
    requires FitsWire(e) && Carries(line, WireFields(e), left, right, trailing)
    ensures Meaning(line) == Parsed(e)
  {
    hide Split, Trim, Join, Pad, MeaningOfAdd, MeaningOfCancel, Carries, CleanField, ToText, SideToken, TifToken, FitsWire, NothingBeyond;
    FitsIsEvent(e);
    var fields := WireFields(e);
    WireFieldsAreClean(e);
    CarriedFields(line, fields, left, right, trailing);
    FieldsMean(e, Trim(line), Split(Trim(line)));
    assert fields[0] == if e.AddOrder? then "ADD" else "CXL";
    assert Field(Split(Trim(line)), 0) == fields[0];
  }

  lemma FitsIsEvent(e: InputEvent)
    requires FitsWire(e)
    ensures e.AddOrder? || e.CancelOrder?
  {
  }

  lemma FieldsMean(e: InputEvent, trimmed: string, pieces: seq<string>)
    requires FitsWire(e) && NothingBeyond(pieces, |WireFields(e)|)
    requires forall i :: 0 <= i < |WireFields(e)| ==> Field(pieces, i) == WireFields(e)[i]
    ensures e.AddOrder? ==> MeaningOfAdd(trimmed, pieces) == Parsed(e)
    ensures e.CancelOrder? ==> MeaningOfCancel(trimmed, pieces) == Parsed(e)
  {
    hide ToText, ParseInt, Field, NothingBeyond, SideToken, TifToken, ParseSide, ParseTif;
    IntRoundTrip(e.orderId);
    if e.AddOrder? {
      TokensAreClean(e.side, e.tif);
      IntRoundTrip(e.quantity);
      IntRoundTrip(e.price);
      var fields := WireFields(e);
      assert fields[1] == ToText(e.orderId) && fields[2] == SideToken(e.side) && fields[3] == ToText(e.quantity)
          && fields[4] == ToText(e.price) && fields[5] == TifToken(e.tif);
    }
  }
}
