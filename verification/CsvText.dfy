/**
 A free-text cell on its way through a CSV file: the escape an export adds so that no spreadsheet runs
 the cell, the trim an import makes of every cell, and the undoing of the escape.
 */
module CsvText {

  /** A first character that makes a cell a formula. */
  predicate Trigger(c: char) {
    c == '=' || c == '+' || c == '-' || c == '@' || c == '\t' || c == '\r'
  }

  /** Any number of `'`, then a trigger. */
  predicate QuotesThenTrigger(text: string) {
    text != [] && if text[0] == '\'' then QuotesThenTrigger(text[1..]) else Trigger(text[0])
  }

  function EscapeFormula(text: string): string {
    if QuotesThenTrigger(text) then ['\''] + text else text
  }

  function UnescapeFormula(text: string): string {
    if text != [] && text[0] == '\'' && QuotesThenTrigger(text[1..]) then text[1..] else text
  }

  /** The escape is undone exactly, for every text, and no escaped cell starts a formula. */
  lemma EscapeUndone(text: string)
    ensures UnescapeFormula(EscapeFormula(text)) == text
    ensures EscapeFormula(text) != [] ==> !Trigger(EscapeFormula(text)[0])
  {
    assert (['\''] + text)[1..] == text;
  }

  // --- Trimming -------------------------------------------------------------------------------------

  /** White space as Unicode defines it. */
  predicate Blank(c: char) {
    || '\t' <= c <= '\r' || c == ' ' || c == '\U{0085}' || c == '\U{00A0}' || c == '\U{1680}'
    || '\U{2000}' <= c <= '\U{200A}' || c == '\U{2028}' || c == '\U{2029}' || c == '\U{202F}'
    || c == '\U{205F}' || c == '\U{3000}'
  }

  function TrimStart(text: string): string {
    if text == [] || !Blank(text[0]) then text else TrimStart(text[1..])
  }

  function TrimEnd(text: string): string {
    if text == [] || !Blank(text[|text| - 1]) then text else TrimEnd(text[..|text| - 1])
  }

  function Trim(text: string): string {
    TrimEnd(TrimStart(text))
  }

  lemma TrimStartLaws(text: string)
    ensures var out := TrimStart(text);
            && (out == [] || !Blank(out[0]))
            && |out| <= |text| && out == text[|text| - |out|..]
            && (out == text <==> text == [] || !Blank(text[0]))
  {
  }

  lemma TrimEndLaws(text: string)
    ensures var out := TrimEnd(text);
            && (out == [] || !Blank(out[|out| - 1]))
            && |out| <= |text| && out == text[..|out|]
            && (out == text <==> text == [] || !Blank(text[|text| - 1]))
  {
  }

  /** A trimmed text starts and ends in no white space, and is the text itself exactly when that did. */
  lemma TrimLaws(text: string)
    ensures var out := Trim(text);
            && (out == [] || (!Blank(out[0]) && !Blank(out[|out| - 1])))
            && |out| <= |text|
            && (out == text <==> text == [] || (!Blank(text[0]) && !Blank(text[|text| - 1])))
  {
    TrimStartLaws(text);
    TrimEndLaws(TrimStart(text));
  }

  /** The text an import takes from a cell: the trim, then the escape undone. */
  function ReadCell(cell: string): string {
    UnescapeFormula(Trim(cell))
  }

  /** What the trim spares: a text that ends in no white space, and starts with none but the tab and the
      return the escape puts a quote before. */
  predicate Kept(text: string) {
    TrimEnd(text) == text && (TrimStart(text) == text || text[0] == '\t' || text[0] == '\r')
  }

  lemma ReadEndsInText(cell: string)
    ensures var read := ReadCell(cell); read == [] || !Blank(read[|read| - 1])
    ensures |ReadCell(cell)| <= |Trim(cell)|
  {
    TrimLaws(cell);
  }

  lemma KeptUntrimmed(text: string)
    requires Kept(text)
    ensures Trim(EscapeFormula(text)) == EscapeFormula(text)
  {
    TrimStartLaws(text);
    TrimEndLaws(text);
    TrimLaws(EscapeFormula(text));
    if QuotesThenTrigger(text) {
      var cell := ['\''] + text;
      assert cell[|cell| - 1] == text[|text| - 1];
    }
  }

  /** Export then import gives a text back exactly when it is one the trim spares. */
  lemma CellRoundTrip(text: string)
    ensures ReadCell(EscapeFormula(text)) == text <==> Kept(text)
  {
    if Kept(text) {
      KeptUntrimmed(text);
      EscapeUndone(text);
    } else if TrimEnd(text) != text {
      TrimEndLaws(text);
      ReadEndsInText(EscapeFormula(text));
    } else {
      TrimStartLaws(text);
      TrimLaws(text);
      // It starts with white space that is no trigger, so it is not escaped and loses it.
      assert EscapeFormula(text) == text;
      ReadEndsInText(text);
    }
  }

  /** Whatever is read from a cell is a text the trim spares. */
  lemma ReadIsKept(cell: string)
    ensures Kept(ReadCell(cell))
  {
    TrimLaws(cell);
    var read := ReadCell(cell);
    ReadEndsInText(cell);
    TrimStartLaws(read);
    TrimEndLaws(read);
  }
}
