/** The milk-tracking dialog: the rows of `milk_details` ordered by serial
    number, one row at a time under edit, the save that writes the edited
    weight to every row with that serial number, and the totals shown under
    the table. Rendering a weight as text is a parameter. */
module Milk {
  import opened Wrappers
  import opened Seqs
  import opened Records
  import opened Numbers

  /** The price per kilogram the dialog starts with. */
  const DefaultRate: real := 45.0

  /** The dialog's state: the rows, the rate, the serial number under edit and
      the text in its box. */
  datatype State = State(details: seq<MilkDetail>, rate: real, editingRow: Option<int>, editValue: string)

  function Initial(): (s: State)
    ensures s.details == [] && s.rate == DefaultRate && s.editingRow.None? && s.editValue == ""
  {
    State([], DefaultRate, None, "")
  }

  /** `fetchMilkDetails`: a failed read keeps the rows. */
  function Fetch(s: State, answer: Result<seq<MilkDetail>, string>): (r: State)
    ensures answer.Failure? ==> r == s
    ensures answer.Success? ==> r == s.(details := answer.value)
  {
    match answer
    case Failure(_) => s
    case Success(rows) => s.(details := rows)
  }

  /** `handleEdit`: put a row under edit, its weight as text in the box. */
  function Edit(s: State, srNo: int, currentKg: real, render: real -> string): (r: State)
    ensures r.editingRow == Some(srNo) && r.editValue == render(currentKg)
    ensures r.details == s.details && r.rate == s.rate
  {
    s.(editingRow := Some(srNo), editValue := render(currentKg))
  }

  /** `handleCancel`, and the reset on switching to view mode: nothing under
      edit and an empty box, the rows untouched. */
  function Cancel(s: State): (r: State)
    ensures r.editingRow.None? && r.editValue == ""
    ensures r.details == s.details && r.rate == s.rate
  {
    s.(editingRow := None, editValue := "")
  }

  /** `mode === 'view'` clears any edit; other modes leave the state. */
  function OnMode(s: State, viewMode: bool): (r: State)
    ensures viewMode ==> r == Cancel(s)
    ensures !viewMode ==> r == s
  {
    if viewMode then Cancel(s) else s
  }

  /** The rows with serial number `srNo` take weight `kg`; the rest stay. */
  function SetKg(details: seq<MilkDetail>, srNo: int, kg: real): (r: seq<MilkDetail>)
    ensures |r| == |details|
    ensures forall i :: 0 <= i < |details| ==>
      r[i] == if details[i].srNo == srNo then details[i].(kg := kg) else details[i]
  {
    if details == [] then []
    else [if details[0].srNo == srNo then details[0].(kg := kg) else details[0]] + SetKg(details[1..], srNo, kg)
  }

  /** `handleSave`: with nothing under edit, or a box that does not parse,
      nothing happens and nothing is written (`writes` is false); otherwise
      the weight is written, and only when the store accepts it do the rows
      change and the edit end. */
  function Save(s: State, answer: Outcome<string>): (r: (State, bool))
    ensures r.1 <==> s.editingRow.Some? && ParseFloat(s.editValue).Finite?
    ensures !r.1 ==> r.0 == s
    ensures r.1 && answer.Fail? ==> r.0 == s
    ensures r.1 && answer.Pass? ==>
      r.0 == Cancel(s).(details := SetKg(s.details, s.editingRow.value, ParseFloat(s.editValue).value))
  {
    match s.editingRow
    case None => (s, false)
    case Some(srNo) =>
      match ParseFloat(s.editValue)
      case NaN => (s, false)
      case Finite(kg) =>
        if answer.Pass? then (Cancel(s).(details := SetKg(s.details, srNo, kg)), true)
        else (s, true)
  }

  /** `totalKg` */
  function TotalKg(s: State): real
  {
    Sum(s.details, Kg)
  }

  /** `totalAmount` */
  function TotalAmount(s: State): real
  {
    TotalKg(s) * s.rate
  }

  /** The rate box: `parseFloat(text) || 0`. Only the rate changes. */
  function OnRate(s: State, text: string): (r: State)
    ensures r.details == s.details && r.editingRow == s.editingRow && r.editValue == s.editValue
    ensures ParseFloat(text).Finite? ==> r.rate == ParseFloat(text).value
    ensures ParseFloat(text).NaN? ==> r.rate == 0.0
  {
    s.(rate := ParseFloat(text).OrZero())
  }

  /** Typing a rate keeps the total weight; a rate that does not parse
      (an emptied box, say) makes the amount owed zero. */
  lemma OnRateTotals(s: State, text: string)
    ensures TotalKg(OnRate(s, text)) == TotalKg(s)
    ensures ParseFloat(text).NaN? ==> TotalAmount(OnRate(s, text)) == 0.0
    ensures text == "" ==> TotalAmount(OnRate(s, text)) == 0.0
  {
  }

  function HasSrNo(srNo: int): MilkDetail -> bool
  {
    (m: MilkDetail) => m.srNo == srNo
  }

  /** How much a row's weight moves when it is set to `kg`. */
  function Change(kg: real): MilkDetail -> real
  {
    (m: MilkDetail) => kg - m.kg
  }

  /** Setting the weight of serial number `srNo` moves the total by exactly
      the change of each row carrying that number. */
  lemma {:induction false} SetKgTotal(details: seq<MilkDetail>, srNo: int, kg: real)
    ensures Sum(SetKg(details, srNo, kg), Kg) == Sum(details, Kg) + Sum(Filter(details, HasSrNo(srNo)), Change(kg))
    decreases |details|
  {
    if details != [] {
      var d, rest := details[0], details[1..];
      var p := HasSrNo(srNo);
      SetKgTotal(rest, srNo, kg);
      assert SetKg(details, srNo, kg)[1..] == SetKg(rest, srNo, kg);
      if d.srNo == srNo {
        assert Filter(details, p) == [d] + Filter(rest, p);
      }
    }
  }

  /** An accepted save keeps the rate and moves the total weight by the
      change of the weights of the rows carrying the edited serial number;
      with `AmountFollowsWeight`, the amount owed moves by that change times
      the rate. */
  lemma SaveMovesWeight(s: State)
    requires s.editingRow.Some? && ParseFloat(s.editValue).Finite?
    ensures Save(s, Pass).0.rate == s.rate
    ensures TotalKg(Save(s, Pass).0) == TotalKg(s)
      + Sum(Filter(s.details, HasSrNo(s.editingRow.value)), Change(ParseFloat(s.editValue).value))
  {
    SetKgTotal(s.details, s.editingRow.value, ParseFloat(s.editValue).value);
  }

  /** At a fixed rate, moving the total weight by `moved` moves the amount by
      `moved` times the rate. */
  lemma AmountFollowsWeight(before: State, after: State, moved: real)
    requires after.rate == before.rate && TotalKg(after) == TotalKg(before) + moved
    ensures TotalAmount(after) == TotalAmount(before) + moved * before.rate
  {
    var a, r := TotalKg(before), before.rate;
    assert (a + moved) * r == a * r + moved * r;
  }

  /** Saving a box whose text reads back as the row's own weight leaves the
      totals as they were, for a serial number held by one row. */
  lemma ResaveKeepsTotals(s: State, i: int, render: real -> string)
    requires 0 <= i < |s.details|
    requires forall j :: 0 <= j < |s.details| && j != i ==> s.details[j].srNo != s.details[i].srNo
    requires ParseFloat(render(s.details[i].kg)) == Finite(s.details[i].kg)
    ensures Save(Edit(s, s.details[i].srNo, s.details[i].kg, render), Pass).0.details == s.details
  {
    var d := s.details[i];
    var editing := Edit(s, d.srNo, d.kg, render);
    assert editing.editingRow == Some(d.srNo) && ParseFloat(editing.editValue) == Finite(d.kg);
    var after := SetKg(s.details, d.srNo, d.kg);
    forall j | 0 <= j < |s.details| ensures after[j] == s.details[j] {
      if j != i {
        assert s.details[j].srNo != d.srNo;
      }
    }
    assert after == s.details;
    assert Save(editing, Pass).0.details == after;
  }
}
