/**
 * The add-task form: two text buffers, a cursor into the active one, and the validator run on
 * submit. `FormValue` is the form as a value, with the editing operations as functions;
 * `FormState` is the mutable buffer the controller edits in place, each of its methods proved
 * to produce exactly the corresponding `FormValue` operation.
 *
 * Text is one element per character; the cursor counts characters.
 */
module Form {
  import opened Wrappers
  import opened Text

  datatype Field = Name | DueDate

  datatype FormValue = FormValue(name: string, dueDate: string, cursor: nat, active: Field) {

    /** The text of the field that receives keystrokes. */
    function ActiveText(): string {
      if active == Name then name else dueDate
    }

    /** The text of the other field. */
    function InactiveText(): string {
      if active == Name then dueDate else name
    }

    /** The cursor stays within the active field's text. */
    predicate Valid() {
      cursor <= |ActiveText()|
    }

    /** Insert `c` at the cursor of the active field and move the cursor past it. */
    function InsertChar(c: char): (r: FormValue)
      requires Valid()
      ensures r.Valid()
      ensures r.active == active && r.cursor == cursor + 1
      ensures r.InactiveText() == InactiveText()
      ensures |r.ActiveText()| == |ActiveText()| + 1 && r.ActiveText()[cursor] == c
      ensures r.ActiveText()[..cursor] == ActiveText()[..cursor]
      ensures r.ActiveText()[cursor + 1..] == ActiveText()[cursor..]
    {
      var t := ActiveText()[..cursor] + [c] + ActiveText()[cursor..];
      match active
      case Name => this.(name := t, cursor := cursor + 1)
      case DueDate => this.(dueDate := t, cursor := cursor + 1)
    }

    /** Backspace: remove the character before the cursor; nothing happens at position 0. */
    function DeleteChar(): (r: FormValue)
      requires Valid()
      ensures r.Valid()
      ensures cursor == 0 ==> r == this
      ensures cursor > 0 ==> r.active == active && r.cursor == cursor - 1
      ensures cursor > 0 ==> r.InactiveText() == InactiveText()
      ensures cursor > 0 ==> r.ActiveText() == ActiveText()[..cursor - 1] + ActiveText()[cursor..]
    {
      if cursor == 0 then this
      else
        var t := ActiveText()[..cursor - 1] + ActiveText()[cursor..];
        match active
        case Name => this.(name := t, cursor := cursor - 1)
        case DueDate => this.(dueDate := t, cursor := cursor - 1)
    }

    /** Switch to the other field and put the cursor at the end of its text. */
    function NextField(): (r: FormValue)
      ensures r.Valid()
      ensures r.active != active
      ensures r.name == name && r.dueDate == dueDate
      ensures r.ActiveText() == InactiveText() && r.cursor == |InactiveText()|
    {
      match active
      case Name => this.(active := DueDate, cursor := |dueDate|)
      case DueDate => this.(active := Name, cursor := |name|)
    }

    /** The date check: empty, or three `-`-separated numbers with month 1..12 and day 1..31. */
    predicate IsValidDate()
      ensures dueDate == [] ==> IsValidDate()
      ensures IsValidDate() && dueDate != [] ==> Count(dueDate, '-') == 2
    {
      if dueDate == [] then true
      else
        var parts := Split(dueDate, '-');
        if |parts| != 3 then false
        else
          var year := ParseI32(parts[0]);
          var month := ParseU32(parts[1]);
          var day := ParseU32(parts[2]);
          if year.None? || month.None? || day.None? then false
          else 1 <= month.value <= 12 && 1 <= day.value <= 31
    }

    /** Submission check: a name is required; a due date, when given, must pass the date check. */
    predicate IsValid()
      ensures IsValid() <==> name != [] && IsValidDate()
    {
      if name == [] then false
      else if dueDate != [] then IsValidDate()
      else true
    }
  }

  /** The form every entry into the add-task view starts from. */
  const EmptyForm: FormValue := FormValue([], [], 0, Name)

  // ---------------------------------------------------------------------------
  // Editing properties

  /** Backspace undoes a keystroke: inserting a character and deleting it restores the form. */
  lemma DeleteUndoesInsert(f: FormValue, c: char)
    requires f.Valid()
    ensures f.InsertChar(c).DeleteChar() == f
  {
    var g := f.InsertChar(c);
    var t := g.ActiveText()[..g.cursor - 1] + g.ActiveText()[g.cursor..];
    assert t == f.ActiveText();
  }

  /** Field cycling has period two: the same field is active again, with the cursor at its end. */
  lemma NextFieldTwice(f: FormValue)
    ensures f.NextField().NextField().active == f.active
    ensures f.NextField().NextField().cursor == |f.ActiveText()|
    ensures f.NextField().NextField() == f.(cursor := |f.ActiveText()|)
  {
  }

  /** From the fresh form, one switch reaches the due date and a second returns to the name. */
  lemma CyclingFromFreshForm(name: string, dueDate: string)
    ensures EmptyForm.(name := name, dueDate := dueDate).NextField()
         == FormValue(name, dueDate, |dueDate|, DueDate)
    ensures EmptyForm.(name := name, dueDate := dueDate).NextField().NextField()
         == FormValue(name, dueDate, |name|, Name)
  {
  }

  // ---------------------------------------------------------------------------
  // Validation properties

  /** A form without a name is rejected whatever its due date. */
  lemma EmptyNameInvalid(f: FormValue)
    requires f.name == []
    ensures !f.IsValid()
  {
  }

  /** A named form without a due date is accepted. */
  lemma NameOnlyValid(f: FormValue)
    requires f.name != [] && f.dueDate == []
    ensures f.IsValid()
  {
  }

  /** A named form is accepted exactly when its date passes the date check. */
  lemma NamedFormValidIffDate(f: FormValue)
    requires f.name != []
    ensures f.IsValid() <==> f.IsValidDate()
  {
  }

  /**
   * Every date written as year, month and day digit strings (leading zeros allowed) with the
   * year in `i32` range, month 1..12 and day 1..31 is accepted; no per-month day limit applies.
   */
  lemma {:induction false} DateAccepted(f: FormValue, y: string, m: string, d: string)
    requires y != [] && m != [] && d != [] && AllDigits(y) && AllDigits(m) && AllDigits(d)
    requires DigitsValue(y) <= I32Max
    requires 1 <= DigitsValue(m) <= 12 && 1 <= DigitsValue(d) <= 31
    requires f.dueDate == y + "-" + m + "-" + d
    ensures f.IsValidDate()
  {
    NoDashInDigits(y);
    NoDashInDigits(m);
    NoDashInDigits(d);
    Join3(y, m, d, '-');
    SplitJoin([y, m, d], '-');
  }

  lemma NoDashInDigits(s: string)
    requires AllDigits(s)
    ensures '-' !in s
  {
    assert forall i :: 0 <= i < |s| ==> s[i] != '-';
  }

  /**
   * Conversely, an accepted non-empty date consists of exactly three dash-free pieces joined by
   * two dashes: a year that parses as `i32`, a month in 1..12 and a day in 1..31.
   */
  lemma {:induction false} DateShape(f: FormValue) returns (y: string, m: string, d: string)
    requires f.dueDate != [] && f.IsValidDate()
    ensures f.dueDate == y + "-" + m + "-" + d
    ensures Count(f.dueDate, '-') == 2
    ensures '-' !in y && '-' !in m && '-' !in d
    ensures ParseI32(y).Some?
    ensures ParseU32(m).Some? && 1 <= ParseU32(m).value <= 12
    ensures ParseU32(d).Some? && 1 <= ParseU32(d).value <= 31
  {
    var parts := Split(f.dueDate, '-');
    y, m, d := parts[0], parts[1], parts[2];
    JoinSplit(f.dueDate, '-');
    assert parts == [y, m, d];
    Join3(y, m, d, '-');
  }

  /**
   * For three dash-free pieces joined by two dashes, the date check holds exactly when the year
   * parses as `i32`, the month as `u32` in 1..12 and the day as `u32` in 1..31.
   */
  lemma {:induction false} DateIffPieces(f: FormValue, y: string, m: string, d: string)
    requires '-' !in y && '-' !in m && '-' !in d
    requires f.dueDate == y + "-" + m + "-" + d
    ensures f.IsValidDate() <==>
              ParseI32(y).Some?
              && ParseU32(m).Some? && 1 <= ParseU32(m).value <= 12
              && ParseU32(d).Some? && 1 <= ParseU32(d).value <= 31
  {
    Join3(y, m, d, '-');
    SplitJoin([y, m, d], '-');
  }

  /** A year written with digits only but above `i32::MAX` rejects the date, whatever follows. */
  lemma DateYearOverflow(f: FormValue, y: string, m: string, d: string)
    requires y != [] && AllDigits(y) && DigitsValue(y) > I32Max
    requires '-' !in m && '-' !in d
    requires f.dueDate == y + "-" + m + "-" + d
    ensures !f.IsValidDate()
  {
    NoDashInDigits(y);
    DateIffPieces(f, y, m, d);
  }

  /** An accepted example: "2024-01-15" (month written with a leading zero). */
  lemma DateExampleAccepted()
    ensures EmptyForm.(dueDate := "2024-01-15").IsValidDate()
  {
    assert "2024"[..3] == "202" && "202"[..2] == "20" && "20"[..1] == "2";
    assert DigitsValue("2024") == 2024;
    assert "01"[..1] == "0" && "15"[..1] == "1";
    assert DigitsValue("01") == 1 && DigitsValue("15") == 15;
    assert "2024-01-15" == "2024" + "-" + "01" + "-" + "15";
    DateAccepted(EmptyForm.(dueDate := "2024-01-15"), "2024", "01", "15");
  }

  /** A date whose month piece is a number above 12 is rejected, whatever the year and day. */
  lemma {:induction false} DateMonthOutOfRange(f: FormValue, y: string, m: string, d: string)
    requires '-' !in y && '-' !in m && '-' !in d
    requires f.dueDate == y + "-" + m + "-" + d
    requires m != [] && AllDigits(m) && DigitsValue(m) > 12
    ensures !f.IsValidDate()
  {
    Join3(y, m, d, '-');
    SplitJoin([y, m, d], '-');
  }

  /** A rejected example, "2024-13-40": the month is out of range. */
  lemma DateExampleBadMonth()
    ensures !EmptyForm.(dueDate := "2024-13-40").IsValidDate()
  {
    assert "2024-13-40" == "2024" + "-" + "13" + "-" + "40";
    assert "13"[..1] == "1";
    DateMonthOutOfRange(EmptyForm.(dueDate := "2024-13-40"), "2024", "13", "40");
  }

  /** A rejected example, "2024-1": only two pieces. */
  lemma DateExampleTwoParts()
    ensures !EmptyForm.(dueDate := "2024-1").IsValidDate()
  {
    assert Count("2024-1", '-') == 1;
  }

  /** A rejected example, "ab-01-15": the year is not a number. */
  lemma DateExampleBadYear()
    ensures !EmptyForm.(dueDate := "ab-01-15").IsValidDate()
  {
    assert "ab-01-15" == "ab" + "-" + "01" + "-" + "15";
    assert !IsDigit("ab"[0]);
    DateIffPieces(EmptyForm.(dueDate := "ab-01-15"), "ab", "01", "15");
  }

  /** A rejected example, "2147483648-01-15": the year is one above `i32::MAX`. */
  lemma DateExampleYearOverflow()
    ensures !EmptyForm.(dueDate := "2147483648-01-15").IsValidDate()
  {
    var y := "2147483648";
    assert y[..9] == "214748364" && y[..9][..8] == "21474836" && y[..9][..8][..7] == "2147483";
    assert "2147483"[..6] == "214748" && "214748"[..5] == "21474" && "21474"[..4] == "2147";
    assert "2147"[..3] == "214" && "214"[..2] == "21" && "21"[..1] == "2";
    assert DigitsValue("2147") == 2147;
    assert DigitsValue("2147483") == 2147483;
    assert DigitsValue(y) == 2147483648;
    assert "2147483648-01-15" == y + "-" + "01" + "-" + "15";
    DateYearOverflow(EmptyForm.(dueDate := "2147483648-01-15"), y, "01", "15");
  }

  // ---------------------------------------------------------------------------
  // The mutable form buffer

  class FormState {
    var name: string
    var dueDate: string
    var cursor: nat
    var active: Field

    function Value(): FormValue
      reads this
    {
      FormValue(name, dueDate, cursor, active)
    }

    /** An empty form with the name field active. */
    constructor ()
      ensures Value() == EmptyForm
    {
      name, dueDate, cursor, active := [], [], 0, Name;
    }

    method InsertChar(c: char)
      requires Value().Valid()
      modifies this
      ensures Value() == old(Value()).InsertChar(c)
    {
      match active
      case Name =>
        name := name[..cursor] + [c] + name[cursor..];
        cursor := cursor + 1;
      case DueDate =>
        dueDate := dueDate[..cursor] + [c] + dueDate[cursor..];
        cursor := cursor + 1;
    }

    method DeleteChar()
      requires Value().Valid()
      modifies this
      ensures Value() == old(Value()).DeleteChar()
    {
      if cursor > 0 {
        match active {
          case Name =>
            name := name[..cursor - 1] + name[cursor..];
          case DueDate =>
            dueDate := dueDate[..cursor - 1] + dueDate[cursor..];
        }
        cursor := cursor - 1;
      }
    }

    method NextField()
      modifies this
      ensures Value() == old(Value()).NextField()
    {
      match active
      case Name =>
        active := DueDate;
        cursor := |dueDate|;
      case DueDate =>
        active := Name;
        cursor := |name|;
    }

    /** Going back is the same move as going forward: there are only two fields. */
    method PreviousField()
      modifies this
      ensures Value() == old(Value()).NextField()
    {
      NextField();
    }
  }
}
