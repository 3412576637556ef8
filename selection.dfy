/**
 * The selection loop of main: read a line, convert it with int(), index the
 * list of registry keys with selection - 1, and re-prompt only when that
 * indexing raises IndexError.
 */
module Selection {
  import opened Wrappers
  import opened Digits
  import opened Registry

  /** One line returned by input(), as int() sees it. */
  datatype Line = Integer(value: int) | NotInteger

  /** The exceptions that leave the loop uncaught. */
  datatype Exception =
    | ValueError  // int() of a line that is not an integer
    | EOFError    // input() after the input is exhausted

  datatype Outcome = Chosen(city: City) | Raised(error: Exception)

  const InvalidChoice: string := "Неверный выбор..."

  /**
   * Python's xs[i] on a list of length n: the position it reads, or None where
   * it raises IndexError. Negative indices count from the end.
   */
  function PyIndex(n: nat, i: int): (p: Option<nat>)
    ensures p.Some? <==> -(n as int) <= i < n
    ensures p.Some? ==> p.value < n && p.value == i % n
  {
    if 0 <= i < n then Some(i)
    else if i < 0 && 0 <= n + i then Some(n + i)
    else None
  }

  /** list(CITIES.keys())[selection - 1] on a registry with n entries. */
  function Lookup(n: nat, selection: int): Option<nat>
  {
    PyIndex(n, selection - 1)
  }

  /** A line that the loop answers with "Неверный выбор..." and a new prompt. */
  predicate Rejected(n: nat, line: Line) {
    line.Integer? && Lookup(n, line.value).None?
  }

  /**
   * The loop, run on the successive lines the user types. It returns how it ended,
   * how many lines it consumed and the messages it printed on the way.
   */
  method SelectCity(registry: seq<City>, inputs: seq<Line>) returns (outcome: Outcome, consumed: nat, messages: seq<string>)
    ensures |messages| <= consumed <= |inputs|
    ensures forall k :: 0 <= k < |messages| ==> messages[k] == InvalidChoice && Rejected(|registry|, inputs[k])
    ensures outcome == Raised(EOFError) <==> |messages| == consumed
    ensures outcome == Raised(EOFError) ==> consumed == |inputs|
    ensures outcome != Raised(EOFError) ==> |messages| == consumed - 1
    ensures outcome == Raised(ValueError) ==> inputs[consumed - 1] == NotInteger
    ensures outcome.Chosen? ==>
      var line := inputs[consumed - 1];
      line.Integer? && Lookup(|registry|, line.value).Some? &&
      outcome.city == registry[Lookup(|registry|, line.value).value]
  {
    consumed, messages := 0, [];
    while consumed < |inputs|
      invariant consumed <= |inputs| && |messages| == consumed
      invariant forall k :: 0 <= k < consumed ==> messages[k] == InvalidChoice && Rejected(|registry|, inputs[k])
    {
      var line := inputs[consumed];
      consumed := consumed + 1;
      match line
      case NotInteger =>
        outcome := Raised(ValueError);
        return;
      case Integer(selection) =>
        var position := Lookup(|registry|, selection);
        if position.Some? {
          outcome := Chosen(registry[position.value]);
          return;
        }
        messages := messages + [InvalidChoice];
    }
    outcome := Raised(EOFError);
  }

  /** With four cities, an integer is accepted iff it lies in -3..4. */
  lemma AcceptanceRange(selection: int)
    ensures Lookup(|Cities|, selection).Some? <==> -3 <= selection <= 4
  {
  }

  /**
   * Which entry an accepted selection reads: 1..n the entry at selection - 1;
   * 1 - n..0 the entry at n + selection - 1, by negative-index wrap-around.
   * Both cases are the entry at (selection - 1) mod n.
   */
  lemma ChosenPosition(n: nat, selection: int)
    ensures 1 <= selection <= n ==> Lookup(n, selection) == Some(selection - 1)
    ensures 1 - n <= selection <= 0 ==> Lookup(n, selection) == Some(n + selection - 1)
    ensures Lookup(n, selection) == if 1 - n <= selection <= n then Some((selection - 1) % n) else None
  {
  }

  /**
   * The menu is the title and one line per entry; line k + 1 is the decimal form of
   * k + 1, ") " and the name of entry k, and typing that number selects entry k.
   */
  lemma MenuNumberSelects(registry: seq<City>, k: nat)
    requires k < |registry|
    ensures |Menu(registry)| == |registry| + 1 && Menu(registry)[0] == MenuTitle
    ensures exists number ::
              Menu(registry)[k + 1] == number + ") " + registry[k].name &&
              AllDigits(number) && ParseDecimal(number) == k + 1 &&
              Lookup(|registry|, ParseDecimal(number)) == Some(k)
  {
    var number := Decimal(k + 1);
    assert Menu(registry)[k + 1] == number + ") " + registry[k].name;
    DecimalRoundTrip(k + 1);
  }

  /** Typing 0 selects Санкт-Петербург, the last city, instead of being refused. */
  lemma ZeroSelectsLastCity()
    ensures Lookup(|Cities|, 0) == Some(3) && Cities[3].name == "Санкт-Петербург"
    ensures Lookup(|Cities|, -3) == Some(0) && Cities[0].name == "Дубна"
  {
  }

  /** The input "abc", then 99, then 2: the first line already ends the loop with ValueError. */
  method NotIntegerEndsLoop() returns (outcome: Outcome, messages: seq<string>)
    ensures outcome == Raised(ValueError) && messages == []
  {
    var inputs := [NotInteger, Integer(99), Integer(2)];
    var consumed;
    outcome, consumed, messages := SelectCity(Cities, inputs);
    assert !Rejected(|Cities|, inputs[0]);
    assert |messages| == 0;
    assert outcome.Raised? && outcome.error != EOFError;
  }

  /**
   * The loop as the menu describes it: only 1..n is a valid choice, and every other
   * line, integer or not, is answered with "Неверный выбор..." and a new prompt.
   */
  method SelectCityIntended(registry: seq<City>, inputs: seq<Line>) returns (outcome: Outcome, consumed: nat, messages: seq<string>)
    ensures |messages| <= consumed <= |inputs|
    ensures outcome.Raised? ==> outcome.error == EOFError
    ensures forall k :: 0 <= k < |messages| ==> messages[k] == InvalidChoice && !InMenuRange(|registry|, inputs[k])
    ensures outcome == Raised(EOFError) <==> |messages| == consumed
    ensures outcome == Raised(EOFError) ==> consumed == |inputs|
    ensures outcome.Chosen? ==>
      |messages| == consumed - 1 && InMenuRange(|registry|, inputs[consumed - 1]) &&
      outcome.city == registry[inputs[consumed - 1].value - 1]
  {
    consumed, messages := 0, [];
    while consumed < |inputs|
      invariant consumed <= |inputs| && |messages| == consumed
      invariant forall k :: 0 <= k < consumed ==> messages[k] == InvalidChoice && !InMenuRange(|registry|, inputs[k])
    {
      var line := inputs[consumed];
      consumed := consumed + 1;
      if InMenuRange(|registry|, line) {
        outcome := Chosen(registry[line.value - 1]);
        return;
      }
      messages := messages + [InvalidChoice];
    }
    outcome := Raised(EOFError);
  }

  predicate InMenuRange(n: nat, line: Line) {
    line.Integer? && 1 <= line.value <= n
  }

  /** Under the intended loop, "abc", 99, 2 is answered twice and then selects Москва. */
  method NotIntegerReprompts() returns (outcome: Outcome, messages: seq<string>)
    ensures outcome == Chosen(Cities[1]) && Cities[1].name == "Москва"
    ensures messages == [InvalidChoice, InvalidChoice]
  {
    var inputs := [NotInteger, Integer(99), Integer(2)];
    var consumed;
    outcome, consumed, messages := SelectCityIntended(Cities, inputs);
    assert InMenuRange(|Cities|, inputs[2]);
    assert |messages| < 3;
    assert outcome != Raised(EOFError);
    assert outcome.Chosen?;
    assert !InMenuRange(|Cities|, inputs[0]) && !InMenuRange(|Cities|, inputs[1]);
    assert consumed == 3;
    assert messages == [messages[0], messages[1]];
  }
}
