/** The class bases of a sample bill: its lines' totals added up by tax class. */
module ClassBases {
  import opened Outcomes
  import opened Grouping
  import opened Catalog

  type ClassId = nat

  const I64_MAX := 9223372036854775807
  const I64_MIN := -9223372036854775808

  predicate InI64(amount: int) {
    I64_MIN <= amount <= I64_MAX
  }

  datatype MoneyError = CurrencyMismatch | Overflow

  /** Amounts add in one currency, within 64 bits. */
  function CheckedAdd(a: Money, b: Money): Result<Money, MoneyError> {
    if a.currency != b.currency then Err(CurrencyMismatch)
    else if InI64(a.amount + b.amount) then Ok(Money(a.currency, a.amount + b.amount))
    else Err(Overflow)
  }

  datatype Line = Line(class_: ClassId, total: Money)

  datatype Base = Base(class_: ClassId, amount: Money)

  function ClassOf(line: Line): ClassId {
    line.class_
  }

  function ClassesOf(bases: seq<Base>): (classes: seq<ClassId>)
    ensures |classes| == |bases| && forall i :: 0 <= i < |bases| ==> classes[i] == bases[i].class_
  {
    seq(|bases|, i requires 0 <= i < |bases| => bases[i].class_)
  }

  /** The sum of one class's line totals. */
  function ClassSum(lines: seq<Line>, class_: ClassId): int {
    if lines == [] then 0
    else
      var last := lines[|lines| - 1];
      ClassSum(lines[..|lines| - 1], class_) + if last.class_ == class_ then last.total.amount else 0
  }

  function Total(lines: seq<Line>): int {
    if lines == [] then 0 else Total(lines[..|lines| - 1]) + lines[|lines| - 1].total.amount
  }

  function BasesTotal(bases: seq<Base>): int {
    if bases == [] then 0 else BasesTotal(bases[..|bases| - 1]) + bases[|bases| - 1].amount.amount
  }

  /** The currency of a class's first line. */
  function CurrencyOf(lines: seq<Line>, class_: ClassId): Option<string> {
    if lines == [] then None
    else
      var earlier := CurrencyOf(lines[..|lines| - 1], class_);
      if earlier.None? && lines[|lines| - 1].class_ == class_ then Some(lines[|lines| - 1].total.currency) else earlier
  }

  /** What stops the last line being added: its class began in another currency, or the class's running sum
      leaves the 64-bit range. */
  function Stops(lines: seq<Line>, line: Line): Option<MoneyError> {
    var currency := CurrencyOf(lines, line.class_);
    if currency.None? then None
    else if currency.value != line.total.currency then Some(CurrencyMismatch)
    else if InI64(ClassSum(lines, line.class_) + line.total.amount) then None
    else Some(Overflow)
  }

  /** Every class of the lines once, in first-seen order, with its sum in its currency; and in all the sum of
      the lines. */
  ghost predicate Groups(lines: seq<Line>, bases: seq<Base>) {
    && ClassesOf(bases) == FirstSeen(lines, ClassOf)
    && (forall i :: 0 <= i < |bases| ==>
          bases[i].amount.amount == ClassSum(lines, bases[i].class_)
              && CurrencyOf(lines, bases[i].class_) == Some(bases[i].amount.currency))
    && BasesTotal(bases) == Total(lines)
  }

  lemma {:induction false} TotalUpdated(bases: seq<Base>, i: nat, base: Base)
    requires i < |bases|
    ensures BasesTotal(bases[i := base]) == BasesTotal(bases) - bases[i].amount.amount + base.amount.amount
  {
    var shorter := bases[..|bases| - 1];
    if i < |shorter| {
      TotalUpdated(shorter, i, base);
      assert bases[i := base][..|bases| - 1] == shorter[i := base];
    } else {
      assert bases[i := base][..|bases| - 1] == shorter;
    }
  }

  lemma {:induction false} Unseen(lines: seq<Line>, class_: ClassId)
    ensures class_ in FirstSeen(lines, ClassOf) <==> CurrencyOf(lines, class_).Some?
    ensures class_ !in FirstSeen(lines, ClassOf) ==> ClassSum(lines, class_) == 0
  {
    if lines != [] {
      Unseen(lines[..|lines| - 1], class_);
    }
  }

  /** The base of `class_`, if there is one. */
  method Find(bases: seq<Base>, class_: ClassId) returns (at: nat)
    ensures at <= |bases| && (at < |bases| ==> bases[at].class_ == class_)
    ensures at == |bases| <==> class_ !in ClassesOf(bases)
  {
    at := 0;
    while at < |bases| && bases[at].class_ != class_
      invariant at <= |bases| && forall j :: 0 <= j < at ==> bases[j].class_ != class_
    {
      at := at + 1;
    }
    if at < |bases| { assert ClassesOf(bases)[at] == class_; }
  }

  lemma LinesStep(lines: seq<Line>, line: Line, class_: ClassId)
    ensures ClassSum(lines + [line], class_) ==
            ClassSum(lines, class_) + if line.class_ == class_ then line.total.amount else 0
    ensures CurrencyOf(lines + [line], class_) ==
            if CurrencyOf(lines, class_).None? && line.class_ == class_ then Some(line.total.currency)
            else CurrencyOf(lines, class_)
    ensures Total(lines + [line]) == Total(lines) + line.total.amount
  {
    assert (lines + [line])[..|lines|] == lines;
  }

  lemma Joins(lines: seq<Line>, bases: seq<Base>, line: Line, at: nat, sum: Money)
    requires Groups(lines, bases) && at < |bases| && bases[at].class_ == line.class_
    requires CheckedAdd(bases[at].amount, line.total) == Ok(sum)
    ensures Groups(lines + [line], bases[at := bases[at].(amount := sum)])
  {
    hide ClassSum, CurrencyOf, Total, BasesTotal, FirstSeen;
    var after := bases[at := bases[at].(amount := sum)];
    LinesStep(lines, line, line.class_);
    FirstSeenStep(lines, line, ClassOf);
    TotalUpdated(bases, at, bases[at].(amount := sum));
    assert ClassesOf(after) == ClassesOf(bases);
    assert ClassesOf(bases)[at] in FirstSeen(lines, ClassOf);
    forall i | 0 <= i < |bases| && i != at
      ensures after[i].amount.amount == ClassSum(lines + [line], after[i].class_)
              && CurrencyOf(lines + [line], after[i].class_) == Some(after[i].amount.currency)
    {
      assert ClassesOf(bases)[i] != ClassesOf(bases)[at];
      LinesStep(lines, line, bases[i].class_);
    }
  }

  lemma TotalStep(bases: seq<Base>, base: Base)
    ensures BasesTotal(bases + [base]) == BasesTotal(bases) + base.amount.amount
  {
    assert (bases + [base])[..|bases|] == bases;
  }

  lemma Begins(lines: seq<Line>, bases: seq<Base>, line: Line)
    requires Groups(lines, bases) && line.class_ !in ClassesOf(bases)
    ensures Groups(lines + [line], bases + [Base(line.class_, line.total)])
  {
    hide ClassSum, CurrencyOf, Total, BasesTotal, FirstSeen;
    var after := bases + [Base(line.class_, line.total)];
    Unseen(lines, line.class_);
    LinesStep(lines, line, line.class_);
    FirstSeenStep(lines, line, ClassOf);
    TotalStep(bases, Base(line.class_, line.total));
    assert ClassesOf(after) == ClassesOf(bases) + [line.class_];
    forall i | 0 <= i < |bases|
      ensures after[i].amount.amount == ClassSum(lines + [line], after[i].class_)
              && CurrencyOf(lines + [line], after[i].class_) == Some(after[i].amount.currency)
    {
      assert ClassesOf(bases)[i] in ClassesOf(bases);
      LinesStep(lines, line, bases[i].class_);
    }
  }

  /** One more line added to its class's base, or its class begun. */
  method AddLine(ghost lines: seq<Line>, bases: seq<Base>, line: Line) returns (result: Result<seq<Base>, MoneyError>)
    requires Groups(lines, bases)
    ensures match result
            case Ok(after) => Groups(lines + [line], after) && Stops(lines, line).None?
            case Err(error) => Stops(lines, line) == Some(error)
  {
    var at := Find(bases, line.class_);
    Unseen(lines, line.class_);
    if at < |bases| {
      var sum := CheckedAdd(bases[at].amount, line.total);
      if sum.Err? {
        return Err(sum.error);
      }
      Joins(lines, bases, line, at, sum.value);
      return Ok(bases[at := bases[at].(amount := sum.value)]);
    }
    Begins(lines, bases, line);
    return Ok(bases + [Base(line.class_, line.total)]);
  }

  /** Nothing stops the first `count` lines. */
  ghost predicate AllAdd(lines: seq<Line>, count: nat)
    requires count <= |lines|
  {
    forall i :: 0 <= i < count ==> Stops(lines[..i], lines[i]).None?
  }

  /** The first line that is stopped, and by what. */
  ghost predicate StoppedAt(lines: seq<Line>, i: nat, error: MoneyError) {
    i < |lines| && AllAdd(lines, i) && Stops(lines[..i], lines[i]) == Some(error)
  }

  lemma NoLines()
    ensures Groups([], [])
  {
  }

  /** The lines grouped by class, or the error at the first line that cannot be added. It fails exactly when
      some line's class began in another currency or some running class sum leaves the 64-bit range. */
  method GroupByClass(lines: seq<Line>) returns (result: Result<seq<Base>, MoneyError>)
    ensures result.Ok? ==> AllAdd(lines, |lines|) && Groups(lines, result.value)
    ensures result.Err? ==> exists i :: StoppedAt(lines, i, result.error)
  {
    NoLines();
    hide Groups, Stops;
    var bases := [];
    for i := 0 to |lines|
      invariant Groups(lines[..i], bases) && AllAdd(lines, i)
    {
      var added := AddLine(lines[..i], bases, lines[i]);
      if added.Err? {
        assert StoppedAt(lines, i, added.error);
        return Err(added.error);
      }
      assert lines[..i + 1] == lines[..i] + [lines[i]];
      bases := added.value;
    }
    assert lines[..|lines|] == lines;
    return Ok(bases);
  }

  ghost predicate OneCurrency(lines: seq<Line>) {
    forall i, j :: 0 <= i < j < |lines| ==> lines[i].total.currency == lines[j].total.currency
  }

  lemma {:induction false} CurrencyIsOne(lines: seq<Line>, class_: ClassId, i: nat)
    requires OneCurrency(lines) && i < |lines|
    ensures var currency := CurrencyOf(lines[..i], class_); currency.Some? ==> currency.value == lines[i].total.currency
  {
    if i > 0 {
      assert lines[..i][..i - 1] == lines[..i - 1];
      CurrencyIsOne(lines, class_, i - 1);
    }
  }

  /** In one currency, with line totals of 64 bits, grouping is stopped exactly by a running class sum out of
      range. */
  lemma OneCurrencyStops(lines: seq<Line>, i: nat)
    requires OneCurrency(lines) && i < |lines| && InI64(lines[i].total.amount)
    ensures Stops(lines[..i], lines[i]).Some? <==> !InI64(ClassSum(lines[..i + 1], lines[i].class_))
    ensures Stops(lines[..i], lines[i]).Some? ==> Stops(lines[..i], lines[i]) == Some(Overflow)
  {
    CurrencyIsOne(lines, lines[i].class_, i);
    Unseen(lines[..i], lines[i].class_);
    assert lines[..i + 1][..i] == lines[..i];
  }

  /** So in one currency the lines group exactly when every running class sum stays in range. */
  lemma OneCurrencyGroups(lines: seq<Line>)
    requires OneCurrency(lines) && forall i :: 0 <= i < |lines| ==> InI64(lines[i].total.amount)
    ensures AllAdd(lines, |lines|) <==>
            forall i :: 0 <= i < |lines| ==> InI64(ClassSum(lines[..i + 1], lines[i].class_))
  {
    forall i | 0 <= i < |lines|
      ensures Stops(lines[..i], lines[i]).Some? <==> !InI64(ClassSum(lines[..i + 1], lines[i].class_))
    {
      OneCurrencyStops(lines, i);
    }
  }
}
