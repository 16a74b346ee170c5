/**
 * `FloatArrayFlags` (flags.go): a command-line flag that may be given several
 * times, each occurrence contributing one float. The flag starts with default
 * contents; the first occurrence that parses replaces them, later ones append.
 * `strconv.ParseFloat` is the parameter `parse`, which yields None exactly when
 * the Go call returns an error.
 */
module FloatFlags {
  import opened Wrappers

  /** The error `Set` passes on from the parser, naming the rejected text. */
  datatype ParseError = ParseError(input: string)

  /** The two fields of the flag, as a value. */
  datatype FlagState = FlagState(values: seq<real>, beenSet: bool)

  /** The effect of one `Set(valueStr)` on the flag's state. */
  function Step(st: FlagState, valueStr: string, parse: string -> Option<real>): (after: FlagState)
    ensures parse(valueStr).None? ==> after == st
    ensures parse(valueStr).Some? ==>
      && after.beenSet
      && |after.values| >= 1
      && after.values[|after.values| - 1] == parse(valueStr).value
      && (if st.beenSet then after.values[..|after.values| - 1] == st.values else |after.values| == 1)
  {
    match parse(valueStr)
    case None => st
    case Some(v) => FlagState((if st.beenSet then st.values else []) + [v], true)
  }

  /** The state after `Set` is called on each of `inputs` in turn. */
  function Replay(st: FlagState, inputs: seq<string>, parse: string -> Option<real>): FlagState {
    if inputs == [] then st
    else Step(Replay(st, inputs[..|inputs| - 1], parse), inputs[|inputs| - 1], parse)
  }

  /** The values of those inputs that parse, in order. */
  function Accepted(inputs: seq<string>, parse: string -> Option<real>): seq<real> {
    if inputs == [] then []
    else
      var last := parse(inputs[|inputs| - 1]);
      Accepted(inputs[..|inputs| - 1], parse) + (if last.Some? then [last.value] else [])
  }

  lemma {:induction false} ReplaySnoc(st: FlagState, inputs: seq<string>, s: string, parse: string -> Option<real>)
    ensures Replay(st, inputs + [s], parse) == Step(Replay(st, inputs, parse), s, parse)
    ensures Accepted(inputs + [s], parse)
      == Accepted(inputs, parse) + (if parse(s).Some? then [parse(s).value] else [])
  {
    assert (inputs + [s])[..|inputs|] == inputs;
  }

  /** From any state, the flag keeps its contents while nothing parses, and
      afterwards holds exactly the accepted values (if it had not been set
      before) or its old contents followed by them (if it had). */
  lemma {:induction false} ReplayContents(st: FlagState, inputs: seq<string>, parse: string -> Option<real>)
    ensures var after, acc := Replay(st, inputs, parse), Accepted(inputs, parse);
      if acc == [] then after == st
      else after == FlagState((if st.beenSet then st.values else []) + acc, true)
  {
    if inputs != [] {
      var init, s := inputs[..|inputs| - 1], inputs[|inputs| - 1];
      assert init + [s] == inputs;
      ReplayContents(st, init, parse);
      ReplaySnoc(st, init, s, parse);
      var acc := Accepted(init, parse);
      if acc != [] && parse(s).Some? {
        assert (if st.beenSet then st.values else []) + acc + [parse(s).value]
          == (if st.beenSet then st.values else []) + (acc + [parse(s).value]);
      }
    }
  }

  /** `beenSet` never returns to false. */
  lemma {:induction false} BeenSetStays(st: FlagState, inputs: seq<string>, parse: string -> Option<real>)
    requires st.beenSet
    ensures Replay(st, inputs, parse).beenSet
  {
    ReplayContents(st, inputs, parse);
  }

  /** Starting from the defaults, after k >= 1 accepted values the flag holds
      exactly those k values. */
  lemma {:induction false} DefaultsReplaced(defaults: seq<real>, inputs: seq<string>, parse: string -> Option<real>)
    requires |Accepted(inputs, parse)| >= 1
    ensures var after := Replay(FlagState(defaults, false), inputs, parse);
      after.beenSet && after.values == Accepted(inputs, parse)
      && |after.values| == |Accepted(inputs, parse)|
  {
    ReplayContents(FlagState(defaults, false), inputs, parse);
  }

  /** A flag that holds at least one value always does. */
  lemma {:induction false} NonEmptyStays(st: FlagState, inputs: seq<string>, parse: string -> Option<real>)
    requires st.values != []
    ensures Replay(st, inputs, parse).values != []
  {
    ReplayContents(st, inputs, parse);
  }

  class FloatArrayFlags {
    var Array: seq<real>
    var beenSet: bool

    /** `&FloatArrayFlags{Array: defaults}`. */
    constructor (defaults: seq<real>)
      ensures Array == defaults && !beenSet
    {
      Array := defaults;
      beenSet := false;
    }

    function State(): FlagState
      reads this
    {
      FlagState(Array, beenSet)
    }

    /** `Set(valueStr)`: an error, and no change, when the text does not
        parse; otherwise the first accepted value replaces the defaults and
        each later one is appended. */
    method Set(valueStr: string, parse: string -> Option<real>) returns (err: Option<ParseError>)
      modifies this
      ensures err.Some? <==> parse(valueStr).None?
      ensures err.Some? ==> err.value.input == valueStr && Array == old(Array) && beenSet == old(beenSet)
      ensures err.None? ==> beenSet && Array == (if old(beenSet) then old(Array) else []) + [parse(valueStr).value]
      ensures State() == Step(old(State()), valueStr, parse)
    {
      var value := parse(valueStr);
      if value.None? {
        return Some(ParseError(valueStr));
      }
      if !beenSet {
        beenSet := true;
        Array := [];
      }
      Array := Array + [value.value];
      return None;
    }
  }
}
