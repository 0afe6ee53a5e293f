/** The timestamp formatter (formatBirthtime): date components printed as
    "year-month-day hour:minute" with plain, unpadded decimal numbers and a
    calendar (1-based) month. Decoding an instant into its components and
    the time zone used for that are outside the model, which starts from
    the components. */
module Timestamp {
  import opened Options
  import opened DateText

  /** The display string of a date: "Y-M-D h:m", where M is the 0-based
      month plus one and no number is zero-padded. The string determines
      the components it was made from: reading it back gives them again. */
  function FormatBirthtime(d: DateParts): (s: string)
    ensures ParseBirthtime(s) == Some(d)
  {
    FieldsReadBack(d);
    LayoutAsFields(IntToString(d.year), d.month + 1, d.day, d.hours, d.minutes);
    Layout(IntToString(d.year), NatToString(d.month + 1), NatToString(d.day),
           NatToString(d.hours), NatToString(d.minutes))
  }

  /** The worked example: 5 March 2024, 08:07, with the month stored as 2. */
  lemma FormatExample(d: DateParts)
    requires d == DateParts(2024, 2, 5, 8, 7)
    ensures FormatBirthtime(d) == "2024-3-5 8:7"
  {
    ExampleNumerals();
    assert FormatBirthtime(d) == Layout("2024", "3", "5", "8", "7");
    ExampleLayout();
  }

  lemma ExampleNumerals()
    ensures IntToString(2024) == "2024"
    ensures NatToString(3) == "3" && NatToString(5) == "5"
    ensures NatToString(8) == "8" && NatToString(7) == "7"
  {
    assert NatToString(2024) == NatToString(202) + "4" == NatToString(20) + "24" == "2024";
  }

  lemma ExampleLayout()
    ensures Layout("2024", "3", "5", "8", "7") == "2024-3-5 8:7"
  {
  }

  /** A string is read back as `d` exactly when it is the display string
      of `d`: the reader accepts no zero padding and no "-0", so no other
      spelling of the same numbers qualifies. */
  lemma FormatReadBackExactly(s: string, d: DateParts)
    ensures ParseBirthtime(s) == Some(d) <==> s == FormatBirthtime(d)
  {
    if ParseBirthtime(s) == Some(d) {
      ParsedLayout(s, d);
      LayoutAsFields(IntToString(d.year), d.month + 1, d.day, d.hours, d.minutes);
    }
  }
}
