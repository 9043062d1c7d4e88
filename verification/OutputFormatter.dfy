/** Rendering output rows, one line each, and reading a rendered text back. */
module OutputFormatter {
  import opened Messages
  import opened Text

  function RejectToken(code: RejectCode): string {
    match code
    case DuplicateOrderId => "DUP"
    case UnknownOrderId => "UNK"
    case InvalidQuantity => "IQT"
    case InvalidPrice => "IPR"
    case InvalidOrderId => "IID"
  }

  function CauseToken(cause: CancelCause): string {
    match cause
    case UserRequest => "USR"
    case ImmediateOrCancel => "IOC"
    case FillOrKill => "FOK"
  }

  function RowFields(row: OutputEvent): seq<string>
    requires !row.EndOfOutput?
  {
    match row
    case Trade(aggressive, resting, quantity) => ["TRD", ToText(aggressive), ToText(resting), ToText(quantity)]
    case Resting(id, filled, resting) => ["RST", ToText(id), ToText(filled), ToText(resting)]
    case Filled(id, filled) => ["FIL", ToText(id), ToText(filled)]
    case Cancelled(id, filled, cancelled, cause) =>
      ["CAN", ToText(id), ToText(filled), ToText(cancelled), CauseToken(cause)]
    case Rejected(id, code) => ["REJ", ToText(id), RejectToken(code)]
  }

  /** One line of output. */
  function Render(row: OutputEvent): string
    requires !row.EndOfOutput?
  {
    Join(RowFields(row)) + "\n"
  }

  function RenderAll(rows: seq<OutputEvent>): string
    requires NoSentinel(rows)
  {
    if rows == [] then "" else Render(rows[0]) + RenderAll(rows[1..])
  }

  /** The wire table: the literal line of every kind of row, cause and code. */
  ghost function WireLine(row: OutputEvent): string
    requires !row.EndOfOutput?
  {
    match row
    case Trade(aggressive, resting, quantity) =>
      "TRD" + "," + ToText(aggressive) + "," + ToText(resting) + "," + ToText(quantity) + "\n"
    case Resting(id, filled, resting) =>
      "RST" + "," + ToText(id) + "," + ToText(filled) + "," + ToText(resting) + "\n"
    case Filled(id, filled) => "FIL" + "," + ToText(id) + "," + ToText(filled) + "\n"
    case Cancelled(id, filled, cancelled, cause) =>
      var token := match cause case UserRequest => "USR" case ImmediateOrCancel => "IOC" case FillOrKill => "FOK";
      "CAN" + "," + ToText(id) + "," + ToText(filled) + "," + ToText(cancelled) + "," + token + "\n"
    case Rejected(id, code) =>
      var token :=
        match code case DuplicateOrderId => "DUP" case UnknownOrderId => "UNK" case InvalidQuantity => "IQT"
                   case InvalidPrice => "IPR" case InvalidOrderId => "IID";
      "REJ" + "," + ToText(id) + "," + token + "\n"
  }

  lemma Regroup(a: string, b: string, c: string, d: string, e: string)
    ensures a + "," + (b + "," + c) + "\n" == a + "," + b + "," + c + "\n"
    ensures a + "," + (b + "," + (c + "," + d)) + "\n" == a + "," + b + "," + c + "," + d + "\n"
    ensures a + "," + (b + "," + (c + "," + (d + "," + e))) + "\n" == a + "," + b + "," + c + "," + d + "," + e + "\n"
  {
  }

  lemma RenderIsWireLine(row: OutputEvent)
    requires !row.EndOfOutput?
    ensures Render(row) == WireLine(row)
  {
    hide ToText, Join;
    JoinRow(row);
    var f := RowFields(row);
    Regroup(f[0], f[1], f[2], if |f| > 3 then f[3] else "", if |f| > 4 then f[4] else "");
  }

  /** The formatter bound to one stream. */
  class Formatter {
    var sink: string

    constructor ()
      ensures sink == ""
    {
      sink := "";
    }

    method Write(row: OutputEvent)
      requires !row.EndOfOutput?
      modifies this
      ensures sink == old(sink) + Render(row) && Render(row) == WireLine(row)
      ensures forall rows :: NoSentinel(rows) && old(sink) == RenderAll(rows) ==>
                NoSentinel(rows + [row]) && sink == RenderAll(rows + [row])
    {
      var line := "";
      match row {
        case Trade(aggressive, resting, quantity) =>
          line := "TRD" + "," + (ToText(aggressive) + "," + (ToText(resting) + "," + ToText(quantity)));
        case Resting(id, filled, resting) =>
          line := "RST" + "," + (ToText(id) + "," + (ToText(filled) + "," + ToText(resting)));
        case Filled(id, filled) =>
          line := "FIL" + "," + (ToText(id) + "," + ToText(filled));
        case Cancelled(id, filled, cancelled, cause) =>
          line := "CAN" + "," + (ToText(id) + "," + (ToText(filled) + "," + (ToText(cancelled) + "," + CauseToken(cause))));
        case Rejected(id, code) =>
          line := "REJ" + "," + (ToText(id) + "," + RejectToken(code));
      }
      hide ToText, CauseToken, RejectToken, RenderAll, Join, WireLine;
      JoinRow(row);
      sink := sink + line + "\n";
      AppendsRow(old(sink), row);
      RenderIsWireLine(row);
    }
  }

  /** A text that renders some rows renders one more once the row's line is added. */
  lemma AppendsRow(before: string, row: OutputEvent)
    requires !row.EndOfOutput?
    ensures forall rows :: NoSentinel(rows) && before == RenderAll(rows) ==>
              NoSentinel(rows + [row]) && before + Render(row) == RenderAll(rows + [row])
  {
    hide Render, RenderAll;
    forall rows | NoSentinel(rows) && before == RenderAll(rows)
      ensures NoSentinel(rows + [row]) && before + Render(row) == RenderAll(rows + [row])
    {
      RenderSnoc(rows, row);
    }
  }

  lemma {:induction false} RenderSnoc(rows: seq<OutputEvent>, row: OutputEvent)
    requires NoSentinel(rows) && !row.EndOfOutput?
    ensures NoSentinel(rows + [row]) && RenderAll(rows + [row]) == RenderAll(rows) + Render(row)
  {
    hide Render;
    if rows == [] {
      assert rows + [row] == [row] && [row][1..] == [];
    } else {
      RenderSnoc(rows[1..], row);
      assert (rows + [row])[1..] == rows[1..] + [row];
    }
  }

  /** The joined fields of a row, spelt out. */
  lemma JoinRow(row: OutputEvent)
    requires !row.EndOfOutput?
    ensures var f := RowFields(row);
      |f| >= 3 && Join(f) ==
        if |f| == 3 then f[0] + "," + (f[1] + "," + f[2])
        else if |f| == 4 then f[0] + "," + (f[1] + "," + (f[2] + "," + f[3]))
        else f[0] + "," + (f[1] + "," + (f[2] + "," + (f[3] + "," + f[4])))
    ensures |RowFields(row)| <= 5
  {
    hide ToText, CauseToken, RejectToken;
    var f := RowFields(row);
    JoinCons(f);
    JoinCons(f[1..]);
    JoinCons(f[2..]);
    assert f[1..][1..] == f[2..];
    if |f| >= 4 {
      JoinCons(f[3..]);
      assert f[2..][1..] == f[3..];
      if |f| == 5 {
        JoinCons(f[4..]);
        assert f[3..][1..] == f[4..];
      }
    }
  }

  lemma JoinCons(f: seq<string>)
    requires |f| >= 1
    ensures Join(f) == if |f| == 1 then f[0] else f[0] + "," + Join(f[1..])
  {
  }

  // ---- reading rendered text back

  /** All fields fit the machine's integer type. */
  predicate FitsRow(row: OutputEvent) {
    match row
    case Trade(a, r, q) => InInt64(a) && InInt64(r) && InInt64(q)
    case Resting(i, f, r) => InInt64(i) && InInt64(f) && InInt64(r)
    case Filled(i, f) => InInt64(i) && InInt64(f)
    case Cancelled(i, f, c, _) => InInt64(i) && InInt64(f) && InInt64(c)
    case Rejected(i, _) => InInt64(i)
    case EndOfOutput => false
  }

  function DecodeCause(s: string): Option<CancelCause> {
    if s == "USR" then Some(UserRequest) else if s == "IOC" then Some(ImmediateOrCancel)
    else if s == "FOK" then Some(FillOrKill) else None
  }

  function DecodeCode(s: string): Option<RejectCode> {
    if s == "DUP" then Some(DuplicateOrderId) else if s == "UNK" then Some(UnknownOrderId)
    else if s == "IQT" then Some(InvalidQuantity) else if s == "IPR" then Some(InvalidPrice)
    else if s == "IID" then Some(InvalidOrderId) else None
  }

  /** A row from its fields: a known tag, as many fields as it takes, and each of its kind. */
  function DecodeFields(f: seq<string>): Option<OutputEvent> {
    if |f| == 4 && f[0] == "TRD" then
      match (ParseInt(f[1]), ParseInt(f[2]), ParseInt(f[3]))
      case (Some(a), Some(r), Some(q)) => Some(Trade(a, r, q))
      case _ => None
    else if |f| == 4 && f[0] == "RST" then
      match (ParseInt(f[1]), ParseInt(f[2]), ParseInt(f[3]))
      case (Some(i), Some(n), Some(r)) => Some(Resting(i, n, r))
      case _ => None
    else if |f| == 3 && f[0] == "FIL" then
      match (ParseInt(f[1]), ParseInt(f[2]))
      case (Some(i), Some(n)) => Some(Filled(i, n))
      case _ => None
    else if |f| == 5 && f[0] == "CAN" then
      match (ParseInt(f[1]), ParseInt(f[2]), ParseInt(f[3]), DecodeCause(f[4]))
      case (Some(i), Some(n), Some(c), Some(cause)) => Some(Cancelled(i, n, c, cause))
      case _ => None
    else if |f| == 3 && f[0] == "REJ" then
      match (ParseInt(f[1]), DecodeCode(f[2]))
      case (Some(i), Some(code)) => Some(Rejected(i, code))
      case _ => None
    else None
  }

  function FindNewline(s: string): (i: nat)
    ensures i <= |s|
  {
    if s == "" || s[0] == '\n' then 0 else FindNewline(s[1..]) + 1
  }

  /** Read a text line by line; every line must be a row, and the last one must be ended. */
  function DecodeAll(text: string): Option<seq<OutputEvent>>
    decreases |text|
  {
    if text == "" then Some([])
    else
      var i := FindNewline(text);
      if i == |text| then None
      else
        match (DecodeFields(Split(text[..i])), DecodeAll(text[i + 1..]))
        case (Some(row), Some(rows)) => Some([row] + rows)
        case _ => None
  }

  lemma {:induction false} FindNewlineAt(a: string, b: string)
    requires '\n' !in a
    ensures FindNewline(a + "\n" + b) == |a|
  {
    if a == "" {
      assert (a + "\n" + b)[0] == '\n';
    } else {
      assert (a + "\n" + b)[1..] == a[1..] + "\n" + b;
      FindNewlineAt(a[1..], b);
    }
  }

  lemma DecodeCons(a: string, b: string, row: OutputEvent, rows: seq<OutputEvent>)
    requires '\n' !in a && DecodeFields(Split(a)) == Some(row) && DecodeAll(b) == Some(rows)
    ensures DecodeAll(a + "\n" + b) == Some([row] + rows)
  {
    FindNewlineAt(a, b);
    var s := a + "\n" + b;
    assert s[..|a|] == a && s[|a| + 1..] == b;
  }

  predicate Plain(s: string) {
    ',' !in s && '\n' !in s
  }

  lemma TokensArePlain(cause: CancelCause, code: RejectCode)
    ensures Plain(CauseToken(cause)) && Plain(RejectToken(code))
    ensures DecodeCause(CauseToken(cause)) == Some(cause) && DecodeCode(RejectToken(code)) == Some(code)
    ensures Plain("TRD") && Plain("RST") && Plain("FIL") && Plain("CAN") && Plain("REJ")
  {
  }

  lemma NumberIsPlain(n: int)
    ensures Plain(ToText(n))
  {
    IntTextIsPlain(n);
  }

  lemma RowFieldsArePlain(row: OutputEvent)
    requires !row.EndOfOutput?
    ensures forall i :: 0 <= i < |RowFields(row)| ==> Plain(RowFields(row)[i])
  {
    hide ToText, CauseToken, RejectToken, Plain;
    TokensArePlain(if row.Cancelled? then row.cause else UserRequest,
                   if row.Rejected? then row.code else DuplicateOrderId);
    match row
    case Trade(a, r, q) => NumberIsPlain(a); NumberIsPlain(r); NumberIsPlain(q);
    case Resting(i, f, r) => NumberIsPlain(i); NumberIsPlain(f); NumberIsPlain(r);
    case Filled(i, f) => NumberIsPlain(i); NumberIsPlain(f);
    case Cancelled(i, f, c, _) => NumberIsPlain(i); NumberIsPlain(f); NumberIsPlain(c);
    case Rejected(i, _) => NumberIsPlain(i);
  }

  lemma {:induction false} JoinHasNoNewline(f: seq<string>)
    requires forall i :: 0 <= i < |f| ==> Plain(f[i])
    ensures '\n' !in Join(f)
  {
    if |f| >= 2 {
      JoinHasNoNewline(f[1..]);
    }
  }

  lemma FieldsReadBack(row: OutputEvent)
    requires FitsRow(row)
    ensures DecodeFields(RowFields(row)) == Some(row)
  {
    hide ToText, ParseInt, CauseToken, RejectToken, DecodeCause, DecodeCode;
    TokensArePlain(if row.Cancelled? then row.cause else UserRequest,
                   if row.Rejected? then row.code else DuplicateOrderId);
    match row
    case Trade(a, r, q) => IntRoundTrip(a); IntRoundTrip(r); IntRoundTrip(q);
    case Resting(i, f, r) => IntRoundTrip(i); IntRoundTrip(f); IntRoundTrip(r);
    case Filled(i, f) => IntRoundTrip(i); IntRoundTrip(f);
    case Cancelled(i, f, c, _) => IntRoundTrip(i); IntRoundTrip(f); IntRoundTrip(c);
    case Rejected(i, _) => IntRoundTrip(i);
  }

  /** The rendered text of a run determines its rows. */
  lemma {:induction false} OutputReadsBack(rows: seq<OutputEvent>)
    requires forall i :: 0 <= i < |rows| ==> FitsRow(rows[i])
    ensures NoSentinel(rows) && DecodeAll(RenderAll(rows)) == Some(rows)
  {
    if rows != [] {
      var row := rows[0];
      hide FitsRow, RowFields, DecodeFields, Split, DecodeAll;
      FitsIsRow(rows);
      OutputReadsBack(rows[1..]);
      RowFieldsArePlain(row);
      RowHasFields(row);
      JoinHasNoNewline(RowFields(row));
      SplitJoin(RowFields(row));
      FieldsReadBack(row);
      DecodeCons(Join(RowFields(row)), RenderAll(rows[1..]), row, rows[1..]);
      assert [row] + rows[1..] == rows;
      assert RenderAll(rows) == Join(RowFields(row)) + "\n" + RenderAll(rows[1..]);
    }
  }

  lemma FitsIsRow(rows: seq<OutputEvent>)
    requires forall i :: 0 <= i < |rows| ==> FitsRow(rows[i])
    ensures NoSentinel(rows)
  {
  }

  lemma RowHasFields(row: OutputEvent)
    requires !row.EndOfOutput?
    ensures |RowFields(row)| >= 1
  {
  }

  /** Distinct row sequences give distinct text, for all machine-range values. */
  lemma OutputIsUnambiguous(a: seq<OutputEvent>, b: seq<OutputEvent>)
    requires forall i :: 0 <= i < |a| ==> FitsRow(a[i])
    requires forall i :: 0 <= i < |b| ==> FitsRow(b[i])
    ensures NoSentinel(a) && NoSentinel(b)
    ensures RenderAll(a) == RenderAll(b) ==> a == b
  {
    OutputReadsBack(a);
    OutputReadsBack(b);
  }
}
