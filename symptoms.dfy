/** Rows of the symptoms table that the diagnosis pipeline reads. */
module Symptoms {
  import opened Wrappers

  /** One row: the free-text clinical notes and the condition label. `None`
      stands for a missing (NaN) cell. */
  datatype SymptomRow = SymptomRow(text: Option<string>, condition: Option<string>)

  /** A row with both cells present. */
  datatype Sample = Sample(text: string, condition: string)

  /** `df.dropna(subset=['text', 'condition'])`: the complete rows, in order. */
  function DropMissing(rows: seq<SymptomRow>): seq<Sample> {
    if rows == [] then []
    else
      var last := rows[|rows| - 1];
      DropMissing(rows[..|rows| - 1])
        + (if last.text.Some? && last.condition.Some? then [Sample(last.text.value, last.condition.value)] else [])
  }

  /** Dropping keeps exactly the complete rows: nothing is invented and nothing complete is lost. */
  lemma {:induction false} DropMissingKeepsCompleteRows(rows: seq<SymptomRow>)
    ensures |DropMissing(rows)| <= |rows|
    ensures forall s :: s in DropMissing(rows) <==> SymptomRow(Some(s.text), Some(s.condition)) in rows
  {
    if rows != [] {
      var init := rows[..|rows| - 1];
      DropMissingKeepsCompleteRows(init);
      assert rows == init + [rows[|rows| - 1]];
    }
  }
}
