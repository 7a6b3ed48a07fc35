/** Every modifier is written exactly once: the functions of module Declarators again, each with a log
    of the modifiers it writes. */
module ModifiersOnce {
  import opened Components
  import opened Declarators
  import opened DeclaratorLaws

  /** What is written, and of which modifiers, in order. */
  datatype Logged = Logged(o: Output, log: seq<Component>)

  function FunctionLog(f: Component, mods: seq<Component>, o: Output): Logged
    requires f.Function?
    decreases |mods|, 1
  {
    var b := Brackets(mods);
    var inside := InsideLog(mods, Open(b, o));
    var after := ThisLog(mods, ParametersText(f, if b.Bare? then inside.o else PutChar(inside.o, ')')));
    Logged(after.o, [f] + inside.log + after.log)
  }

  function InsideLog(mods: seq<Component>, o: Output): Logged
    decreases |mods|, 0
  {
    if mods == [] then Logged(o, [])
    else if IsThis(mods[0]) then InsideLog(mods[1..], o)
    else if mods[0].Function? then FunctionLog(mods[0], mods[1..], o)
    else
      var rest := InsideLog(mods[1..], ModText(mods[0], o));
      Logged(rest.o, [mods[0]] + rest.log)
  }

  function ThisLog(mods: seq<Component>, o: Output): Logged
    decreases |mods|
  {
    if mods == [] || mods[0].Function? then Logged(o, [])
    else if IsThis(mods[0]) then
      var rest := ThisLog(mods[1..], Put(o, KindText(mods[0].kind)));
      Logged(rest.o, [mods[0]] + rest.log)
    else ThisLog(mods[1..], o)
  }

  /** One pass over the modifiers of a type (DeclaratorLaws.Walk). */
  function WalkLog(chain: seq<Component>, mods: seq<Component>, o: Output): (Logged, bool)
    decreases |chain|
  {
    if chain == [] then (Logged(o, []), false)
    else if chain[0].Function? then (FunctionLog(chain[0], chain[1..] + mods, PutChar(o, ' ')), true)
    else
      var (rest, placed) := WalkLog(chain[1..], mods, ModText(chain[0], o));
      (Logged(rest.o, [chain[0]] + rest.log), placed)
  }

  /** The qualifiers of `this` that wait until after the parameters. */
  function Waits(mods: seq<Component>): seq<Component> {
    if mods == [] || mods[0].Function? then []
    else (if IsThis(mods[0]) then [mods[0]] else []) + Waits(mods[1..])
  }

  lemma {:induction false} ThisOnce(mods: seq<Component>, o: Output)
    ensures ThisLog(mods, o) == Logged(ThisText(mods, o), Waits(mods))
    decreases |mods|
  {
    hide Put;
    if mods != [] && !mods[0].Function? {
      ThisOnce(mods[1..], if IsThis(mods[0]) then Put(o, KindText(mods[0].kind)) else o);
    }
  }

  lemma {:induction false} InsideOnce(mods: seq<Component>, o: Output)
    ensures InsideLog(mods, o).o == Inside(mods, o)
    ensures multiset(InsideLog(mods, o).log) + multiset(Waits(mods)) == multiset(mods)
    decreases |mods|, 0
  {
    hide Put, ModText, FunctionText, FunctionLog, ThisText;
    if mods != [] {
      assert mods == [mods[0]] + mods[1..];
      if IsThis(mods[0]) {
        InsideOnce(mods[1..], o);
      } else if mods[0].Function? {
        FunctionOnce(mods[0], mods[1..], o);
      } else {
        InsideOnce(mods[1..], ModText(mods[0], o));
      }
    }
  }

  /** A function declarator writes itself and every modifier around it, each exactly once, those inside
      other function declarators included. */
  lemma {:induction false} FunctionOnce(f: Component, mods: seq<Component>, o: Output)
    requires f.Function?
    ensures FunctionLog(f, mods, o).o == FunctionText(f, mods, o)
    ensures multiset(FunctionLog(f, mods, o).log) == multiset([f] + mods)
    decreases |mods|, 1
  {
    hide Inside, ThisText, ParametersText, Put, PutChar, Waits, InsideLog, ThisLog;
    var b := Brackets(mods);
    InsideOnce(mods, Open(b, o));
    var o1 := Inside(mods, Open(b, o));
    ThisOnce(mods, ParametersText(f, if b.Bare? then o1 else PutChar(o1, ')')));
  }

  lemma {:induction false} WalkOnce(chain: seq<Component>, mods: seq<Component>, o: Output)
    ensures
      var (logged, placed) := WalkLog(chain, mods, o);
      && Walk(chain, mods, o) == (logged.o, placed)
      && multiset(logged.log) == multiset(chain + if placed then mods else [])
    decreases |chain|
  {
    hide FunctionText, FunctionLog, ModText, PutChar;
    if chain != [] {
      if chain[0].Function? {
        FunctionOnce(chain[0], chain[1..] + mods, PutChar(o, ' '));
        assert [chain[0]] + (chain[1..] + mods) == chain + mods;
      } else {
        WalkOnce(chain[1..], mods, ModText(chain[0], o));
        var placed := WalkLog(chain[1..], mods, ModText(chain[0], o)).1;
        var tail := if placed then mods else [];
        assert [chain[0]] + (chain[1..] + tail) == chain + tail;
      }
    }
  }

  /** A type writes the component at the bottom of it, and then, whatever the order, every modifier on
      the way exactly once; those around it exactly once if a function declarator took them, and
      otherwise not at all. */
  lemma {:induction false} TypeOnce(t: Component, mods: seq<Component>, o: Output)
    ensures
      var (b, chain) := Spine(t, mods);
      var (logged, placed) := if b.Function? then (FunctionLog(b, chain + mods, o), true)
                              else WalkLog(chain, mods, Base(b, o));
      && Declare(t, mods, o) == (logged.o, placed)
      && multiset(logged.log) == multiset((if b.Function? then [b] else []) + chain + if placed then mods else [])
  {
    hide FunctionText, FunctionLog, Base, Declare, Walk, WalkLog, Spine;
    LinearForm(t, mods, o);
    var (b, chain) := Spine(t, mods);
    if b.Function? {
      FunctionOnce(b, chain + mods, o);
      assert [b] + (chain + mods) == [b] + chain + mods;
    } else {
      WalkOnce(chain, mods, Base(b, o));
      assert [] + chain == chain;
    }
  }
}
