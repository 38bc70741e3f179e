/** The human player's coordinate entry: a line split into tokens must be
    exactly two decimal numbers, each between 1 and the board size; they are
    turned into a 0-based cell. */
module Input {
  import opened Results
  import opened Cells
  import opened Boards

  /** The two ways a line of input is refused. */
  datatype AskError = NotTwoNumbers | OffTheMap

  predicate IsDigit(c: char) {
    '0' <= c <= '9'
  }

  /** A non-empty run of decimal digits. */
  predicate Numeral(t: string) {
    |t| > 0 && forall i :: 0 <= i < |t| ==> IsDigit(t[i])
  }

  /** Ten to the power `n`. */
  function Pow10(n: nat): nat {
    if n == 0 then 1 else 10 * Pow10(n - 1)
  }

  /** The number a run of decimal digits denotes (leading zeros allowed):
      below ten to the number of digits, with the last digit as its last
      decimal digit. */
  function Value(t: string): (v: nat)
    requires forall i :: 0 <= i < |t| ==> IsDigit(t[i])
    ensures v < Pow10(|t|)
    ensures |t| > 0 ==> v % 10 == t[|t| - 1] as int - '0' as int
    decreases |t|
  {
    if t == [] then 0
    else
      assert IsDigit(t[|t| - 1]);
      10 * Value(t[..|t| - 1]) + (t[|t| - 1] as int - '0' as int)
  }

  /** The digit character for `n`. */
  function Digit(n: nat): (c: char)
    requires n < 10
    ensures IsDigit(c) && c as int - '0' as int == n
  {
    ('0' as int + n) as char
  }

  /** The decimal numeral for `n`, without leading zeros. */
  function Show(n: nat): (t: string)
    ensures Numeral(t)
    decreases n
  {
    if n < 10 then [Digit(n)] else Show(n / 10) + [Digit(n % 10)]
  }

  /** Reading back the numeral of `n` gives `n`. */
  lemma {:induction false} ValueShow(n: nat)
    ensures Value(Show(n)) == n
  {
    var t := Show(n);
    if n < 10 {
      assert t[..0] == [];
    } else {
      assert t[..|t| - 1] == Show(n / 10);
      ValueShow(n / 10);
    }
  }

  /** Validates a tokenised input line against a board of side `size`. */
  function Ask(tokens: seq<string>, size: int): (r: Result<Dot, AskError>)
    ensures r.Ok? <==>
      && |tokens| == 2 && Numeral(tokens[0]) && Numeral(tokens[1])
      && 1 <= Value(tokens[0]) <= size && 1 <= Value(tokens[1]) <= size
    ensures r.Ok? ==> 0 <= r.value.x < size && 0 <= r.value.y < size
    ensures r.Ok? ==> r.value == Dot(Value(tokens[0]) - 1, Value(tokens[1]) - 1)
    ensures r.Err? ==> (r.error == NotTwoNumbers <==> !(|tokens| == 2 && Numeral(tokens[0]) && Numeral(tokens[1])))
  {
    if |tokens| != 2 || !Numeral(tokens[0]) || !Numeral(tokens[1]) then Err(NotTwoNumbers)
    else
      var x := Value(tokens[0]);
      var y := Value(tokens[1]);
      if !(1 <= x <= size && 1 <= y <= size) then Err(OffTheMap)
      else Ok(Dot(x - 1, y - 1))
  }

  /** Typing the 1-based numerals of any on-board cell selects that cell. */
  lemma AskShown(b: Board, d: Dot)
    requires !Out(b, d)
    ensures Ask([Show(d.x + 1), Show(d.y + 1)], b.size) == Ok(d)
  {
    ValueShow(d.x + 1);
    ValueShow(d.y + 1);
  }
}
