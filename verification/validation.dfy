/** `validateTransactionForm`: every problem with the add form's fields, in a
    fixed order, without stopping at the first. */
module Validation {
  import opened Optional
  import Text

  /** The five problems the form can have, in the order they are checked. */
  datatype Problem = DescriptionRequired | AmountNonZero | DateRequired | CategoryRequired | DateInFuture

  /** The text shown to the user for each problem. */
  function Message(p: Problem): string
  {
    match p
    case DescriptionRequired => "Description is required"
    case AmountNonZero => "Amount must be non-zero"
    case DateRequired => "Date is required"
    case CategoryRequired => "Category is required"
    case DateInFuture => "Date cannot be in the future"
  }

  /** Position of a problem in the checking order. */
  function Rank(p: Problem): nat
  {
    match p
    case DescriptionRequired => 0
    case AmountNonZero => 1
    case DateRequired => 2
    case CategoryRequired => 3
    case DateInFuture => 4
  }

  /** The amount argument as the form passes it: the input's text, or a number. */
  datatype AmountInput = AmountText(text: string) | AmountNumber(value: int)

  /** `!description || description.trim().length === 0` */
  predicate DescriptionMissing(description: string)
  {
    |Text.Trim(description)| == 0
  }

  /** `!amount || amount === '0' || amount === 0`: the empty text, the text
      "0" and the number zero. Other spellings of zero are compared as text
      and pass. */
  predicate AmountMissing(amount: AmountInput)
  {
    match amount
    case AmountText(s) => s == "" || s == "0"
    case AmountNumber(n) => n == 0
  }

  /** `new Date(date) > today`: the instant the date text denotes (`None`
      for an invalid date, which compares false) lies after the last
      millisecond of today. */
  predicate InFuture(selected: Option<int>, endOfToday: int)
  {
    selected.Some? && selected.value > endOfToday
  }

  /** The problems are listed in checking order, each at most once. */
  predicate InOrder(problems: seq<Problem>)
  {
    forall i, j :: 0 <= i < j < |problems| ==> Rank(problems[i]) < Rank(problems[j])
  }

  /** One check of the form: records `p` after the earlier problems when it
      applies. */
  function Check(found: seq<Problem>, applies: bool, p: Problem): (r: seq<Problem>)
    requires InOrder(found) && forall q :: q in found ==> Rank(q) < Rank(p)
    ensures InOrder(r)
    ensures forall q :: q in r <==> q in found || (applies && q == p)
    ensures forall q :: q in r ==> Rank(q) <= Rank(p)
  {
    if applies then found + [p] else found
  }

  /** The problems of a form. `parse` stands for `new Date(text)` as an
      instant in milliseconds (`None` when invalid) and `endOfToday` for the
      last millisecond of the current local day. Each problem that applies is
      listed once, in checking order. */
  function Validate(description: string, amount: AmountInput, date: string, category: string,
                    parse: string -> Option<int>, endOfToday: int): (problems: seq<Problem>)
    ensures InOrder(problems)
    ensures DescriptionRequired in problems <==> DescriptionMissing(description)
    ensures AmountNonZero in problems <==> AmountMissing(amount)
    ensures DateRequired in problems <==> date == ""
    ensures CategoryRequired in problems <==> category == ""
    ensures DateInFuture in problems <==> InFuture(parse(date), endOfToday)
    ensures |problems| == 0 <==>
      && !DescriptionMissing(description) && !AmountMissing(amount)
      && date != "" && !InFuture(parse(date), endOfToday) && category != ""
  {
    var p1 := Check([], DescriptionMissing(description), DescriptionRequired);
    var p2 := Check(p1, AmountMissing(amount), AmountNonZero);
    var p3 := Check(p2, date == "", DateRequired);
    var p4 := Check(p3, category == "", CategoryRequired);
    var p5 := Check(p4, InFuture(parse(date), endOfToday), DateInFuture);
    assert |p5| > 0 ==> p5[0] in p5;
    p5
  }

  /** `validateTransactionForm`: the messages the page shows, in order. */
  function ValidateTransactionForm(description: string, amount: AmountInput, date: string, category: string,
                                   parse: string -> Option<int>, endOfToday: int): (errors: seq<string>)
    ensures |errors| == |Validate(description, amount, date, category, parse, endOfToday)|
    ensures forall i :: 0 <= i < |errors| ==>
      errors[i] == Message(Validate(description, amount, date, category, parse, endOfToday)[i])
  {
    var problems := Validate(description, amount, date, category, parse, endOfToday);
    seq(|problems|, i requires 0 <= i < |problems| => Message(problems[i]))
  }

  /** Two ordered problem lists with the same members are the same list, so
      the membership clauses of `Validate` pin its result down exactly. */
  lemma {:induction false} InOrderDeterminedByMembers(a: seq<Problem>, b: seq<Problem>)
    requires InOrder(a) && InOrder(b)
    requires forall q :: q in a <==> q in b
    ensures a == b
    decreases |a|
  {
    assert |a| > 0 ==> a[0] in b;
    assert |b| > 0 ==> b[0] in a;
    if |a| > 0 {
      assert a[0] in b && b[0] in a;
      assert Rank(a[0]) <= Rank(b[0]) && Rank(b[0]) <= Rank(a[0]);
      assert a[0] == b[0];
      forall q | q in a[1..] ensures q in b[1..] {
        var i :| 1 <= i < |a| && a[i] == q;
        assert q in b;
        var j :| 0 <= j < |b| && b[j] == q;
        assert j != 0;
      }
      forall q | q in b[1..] ensures q in a[1..] {
        var j :| 1 <= j < |b| && b[j] == q;
        assert q in a;
        var i :| 0 <= i < |a| && a[i] == q;
        assert i != 0;
      }
      InOrderDeterminedByMembers(a[1..], b[1..]);
      assert a == [a[0]] + a[1..] && b == [b[0]] + b[1..];
    }
  }

  /** An entirely empty form yields exactly the four required-field problems:
      the empty date is an invalid date, so it is not also in the future. */
  lemma AllEmptyInput(parse: string -> Option<int>, endOfToday: int)
    requires parse("") == None
    ensures Validate("", AmountText(""), "", "", parse, endOfToday)
         == [DescriptionRequired, AmountNonZero, DateRequired, CategoryRequired]
    ensures Validate("", AmountNumber(0), "", "", parse, endOfToday)
         == [DescriptionRequired, AmountNonZero, DateRequired, CategoryRequired]
  {
    var expected := [DescriptionRequired, AmountNonZero, DateRequired, CategoryRequired];
    assert InOrder(expected);
    assert forall q :: q in expected <==> q != DateInFuture;
    assert DescriptionMissing("");
    var v1 := Validate("", AmountText(""), "", "", parse, endOfToday);
    assert forall q :: q in v1 <==> q != DateInFuture;
    InOrderDeterminedByMembers(v1, expected);
    var v2 := Validate("", AmountNumber(0), "", "", parse, endOfToday);
    assert forall q :: q in v2 <==> q != DateInFuture;
    InOrderDeterminedByMembers(v2, expected);
  }

  /** A description of whitespace only is missing. */
  lemma BlankDescriptionRejected(description: string, amount: AmountInput, date: string, category: string,
                                 parse: string -> Option<int>, endOfToday: int)
    requires Text.AllWhitespace(description)
    ensures DescriptionRequired in Validate(description, amount, date, category, parse, endOfToday)
  {
  }

  /** The empty text, the text "0" and the number zero are all rejected. */
  lemma ZeroAmountsRejected(description: string, date: string, category: string,
                            parse: string -> Option<int>, endOfToday: int)
    ensures AmountNonZero in Validate(description, AmountText(""), date, category, parse, endOfToday)
    ensures AmountNonZero in Validate(description, AmountText("0"), date, category, parse, endOfToday)
    ensures AmountNonZero in Validate(description, AmountNumber(0), date, category, parse, endOfToday)
  {
  }

  /** With every other field valid, a date whose instant lies after the end
      of today yields exactly the future-date problem, and any instant up to
      the end of today (today's own date included) yields none. */
  lemma FutureDateAlone(description: string, amount: AmountInput, date: string, category: string,
                        parse: string -> Option<int>, endOfToday: int)
    requires !DescriptionMissing(description) && !AmountMissing(amount) && category != ""
    requires date != "" && parse(date).Some?
    ensures parse(date).value > endOfToday ==>
      Validate(description, amount, date, category, parse, endOfToday) == [DateInFuture]
    ensures parse(date).value <= endOfToday ==>
      Validate(description, amount, date, category, parse, endOfToday) == []
  {
    if parse(date).value > endOfToday {
      InOrderDeterminedByMembers(Validate(description, amount, date, category, parse, endOfToday), [DateInFuture]);
    }
  }

  /** A date-only text names midnight UTC of that day. On a page whose clock
      runs `offset` milliseconds ahead of UTC, between UTC-12 and UTC+14,
      today's local midnight is `endOfToday - 86399999`, and midnight UTC of
      the day `daysAhead` days on lies `offset` later. Today's date is then
      always accepted, and tomorrow's is rejected as in the future exactly
      when the zone is not behind UTC. */
  lemma DateOnlyInput(description: string, amount: AmountInput, date: string, category: string,
                      parse: string -> Option<int>, endOfToday: int, offset: int, daysAhead: int)
    requires !DescriptionMissing(description) && !AmountMissing(amount) && category != ""
    requires date != ""
    requires -43200000 <= offset <= 50400000
    requires daysAhead == 0 || daysAhead == 1
    requires parse(date) == Some(endOfToday - 86399999 + 86400000 * daysAhead + offset)
    ensures daysAhead == 0 ==> Validate(description, amount, date, category, parse, endOfToday) == []
    ensures daysAhead == 1 && offset >= 0 ==>
      Validate(description, amount, date, category, parse, endOfToday) == [DateInFuture]
    ensures daysAhead == 1 && offset < 0 ==>
      Validate(description, amount, date, category, parse, endOfToday) == []
  {
    FutureDateAlone(description, amount, date, category, parse, endOfToday);
  }

  /** The amount check compares text: "0.00" is not caught, although it
      denotes zero. */
  lemma ZeroWithDecimalsPasses(parse: string -> Option<int>, endOfToday: int)
    requires parse("2024-01-05") == Some(endOfToday - 1)
    ensures Validate("Coffee", AmountText("0.00"), "2024-01-05", "Food", parse, endOfToday) == []
  {
    assert !Text.AllWhitespace("Coffee") by { assert !Text.IsWhitespace("Coffee"[0]); }
  }

}
