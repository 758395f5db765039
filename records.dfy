/** The record normaliser of the batch loop: one table row to a trimmed record. */
module Records {
  import opened Text

  /** A table cell as pandas hands it over: NaN (empty field) or the value's `str` text. */
  datatype Cell = Missing | Present(text: string)

  /** A table row, by column name. */
  type Row = map<string, Cell>

  datatype Record = Record(name: string, dob: string, cnic: string)

  const NanText: string := "nan"

  /** `str(value)`: NaN prints as "nan". */
  function CellStr(c: Cell): string {
    match c
    case Missing => NanText
    case Present(t) => t
  }

  /** A DOB or CNIC field (KYC_Sentinel/main.py:267-268): empty for a missing cell, the
      stripped text otherwise. */
  function OptionalField(c: Cell): (r: string)
    ensures c.Missing? ==> r == ""
    ensures c.Present? ==> r == Strip(c.text)
  {
    match c
    case Missing => ""
    case Present(t) => Strip(t)
  }

  predicate HasRequired(row: Row) {
    "Name" in row && "DOB" in row && "CNIC" in row
  }

  /** The normalised record of one row: all three fields trimmed; a missing DOB or CNIC
      becomes "", a missing name becomes "nan". */
  function NormalizeRow(row: Row): (r: Record)
    requires HasRequired(row)
    ensures IsTrimmed(r.name) && IsTrimmed(r.dob) && IsTrimmed(r.cnic)
    ensures row["Name"].Missing? ==> r.name == NanText
    ensures row["Name"].Present? ==> r.name == Strip(row["Name"].text)
    ensures row["DOB"].Missing? ==> r.dob == ""
    ensures row["DOB"].Present? ==> r.dob == Strip(row["DOB"].text)
    ensures row["CNIC"].Missing? ==> r.cnic == ""
    ensures row["CNIC"].Present? ==> r.cnic == Strip(row["CNIC"].text)
  {
    StripNan();
    Record(Strip(CellStr(row["Name"])), OptionalField(row["DOB"]), OptionalField(row["CNIC"]))
  }

  lemma StripNan()
    ensures Strip(NanText) == NanText
  {
    assert SpaceAround(NanText, 0, NanText);
    StripUnique(NanText, 0, NanText);
  }

  /** The batch's test for a row without a name (KYC_Sentinel/main.py:270): empty, or "nan"
      in any letter case. */
  predicate IsBlankName(name: string) {
    name == [] || Lower(name) == NanText
  }

  /** A row's name is blank exactly when the cell is missing, or holds only whitespace,
      or holds one of the case spellings of "nan" with any whitespace around it. */
  lemma BlankNameCases(row: Row)
    requires HasRequired(row)
    ensures IsBlankName(NormalizeRow(row).name) <==>
      row["Name"].Missing?
      || (forall k :: 0 <= k < |row["Name"].text| ==> IsSpace(row["Name"].text[k]))
      || (var t := Strip(row["Name"].text);
          |t| == 3 && (t[0] == 'n' || t[0] == 'N') && (t[1] == 'a' || t[1] == 'A') && (t[2] == 'n' || t[2] == 'N'))
  {
    var name := NormalizeRow(row).name;
    LowerIsNan(name);
    if row["Name"].Missing? {
      StripNan();
    } else {
      StripEmpty(row["Name"].text);
    }
  }
}
