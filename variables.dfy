/**
  The variable store: numbered variables (`#1`) that a line may assign
  (`#1=42.30000`) or reference (`G0 X#1`).

  A name is in one of three states: absent from the store, declared without a value
  (seen in a reference before any assignment), or bound to the canonical text of a
  number. Lines are rewritten so that an unresolved reference never reaches the
  machine.
*/
module Variables {
  import opened Wrappers
  import opened Decimal
  import opened Errors
  import opened Sequences
  import Normalizer
  import Words

  type Store = map<string, Option<string>>

  /** Every bound value is the canonical text of a number. */
  predicate ValidStore(vars: Store) {
    forall name | name in vars && vars[name].Some? :: IsCanonical(vars[name].value)
  }

  predicate Bound(vars: Store, name: string) {
    name in vars && vars[name].Some?
  }

  predicate NoHash(s: string) {
    forall k | 0 <= k < |s| :: s[k] != '#'
  }

  /** The names referenced in `s`, in order: the digits after each `#` (possibly none). */
  function Refs(s: string): (r: seq<string>)
    ensures forall i | 0 <= i < |r| :: IsDigits(r[i])
    ensures NoHash(s) ==> r == []
    decreases |s|
  {
    if s == [] then []
    else if s[0] == '#' then
      var n := DigitRun(s[1..]);
      [s[1..][..n]] + Refs(s[1..][n..])
    else Refs(s[1..])
  }

  /**
    `s` with every reference replaced by the value bound to it, or `None` when some
    reference is not bound to a value.
  */
  function Substitute(s: string, vars: Store): (r: Option<string>)
    ensures r.Some? <==> AllBound(vars, Refs(s))
    ensures r.Some? && ValidStore(vars) ==> NoHash(r.value)
    ensures NoHash(s) ==> r == Some(s)
    decreases |s|
  {
    if s == [] then Some([])
    else if s[0] == '#' then
      var n := DigitRun(s[1..]);
      var name := s[1..][..n];
      assert Refs(s) == [name] + Refs(s[1..][n..]);
      AllBoundCons(vars, name, Refs(s[1..][n..]));
      if Bound(vars, name) then
        match Substitute(s[1..][n..], vars)
        case Some(t) =>
          BoundValueHasNoHash(vars, name);
          NoHashConcat(vars[name].value, t);
          Some(vars[name].value + t)
        case None => None
      else None
    else
      assert Refs(s) == Refs(s[1..]);
      match Substitute(s[1..], vars)
      case Some(t) =>
        Uncons(s);
        NoHashConcat([s[0]], s[1..]);
        NoHashConcat([s[0]], t);
        Some([s[0]] + t)
      case None => None
  }

  /** Text without references in front of `x` references nothing itself. */
  lemma {:induction false} RefsPlain(a: string, x: string)
    requires NoHash(a)
    ensures Refs(a + x) == Refs(x)
    decreases |a|
  {
    if a == [] {
      assert a + x == x;
    } else {
      var s := a + x;
      assert s != [] && s[0] == a[0] != '#' && s[1..] == a[1..] + x;
      RefsPlain(a[1..], x);
    }
  }

  /** A reference at the start of the text: `#`, the digits of its name, then text that does not go on with a digit. */
  lemma RefsAt(name: string, b: string)
    requires IsDigits(name)
    requires b == [] || !IsDigit(b[0])
    ensures Refs("#" + name + b) == [name] + Refs(b)
  {
    var t := name + b;
    assert "#" + name + b == "#" + t;
    RefsHash(t);
    DigitRunOfDigitsThen(name, b);
    Halves(name, b);
  }

  lemma RefsHash(t: string)
    ensures var n := DigitRun(t); Refs("#" + t) == [t[..n]] + Refs(t[n..])
  {
    var s := "#" + t;
    assert s != [] && s[0] == '#' && s[1..] == t;
  }

  /** The names a line references: the one after the first `#`, then those further on. */
  lemma RefsRef(a: string, name: string, b: string)
    requires NoHash(a) && IsDigits(name)
    requires b == [] || !IsDigit(b[0])
    ensures Refs(a + "#" + name + b) == [name] + Refs(b)
  {
    var x := "#" + name + b;
    assert a + "#" + name + b == a + x;
    RefsPlain(a, x);
    RefsAt(name, b);
  }

  /** Text without references in front of `x` is copied into the substituted text. */
  lemma {:induction false} SubstitutePlain(a: string, x: string, vars: Store)
    requires NoHash(a)
    ensures Substitute(a + x, vars) ==
      if Substitute(x, vars).Some? then Some(a + Substitute(x, vars).value) else None
    decreases |a|
  {
    if a == [] {
      assert a + x == x;
      if Substitute(x, vars).Some? {
        assert a + Substitute(x, vars).value == Substitute(x, vars).value;
      }
    } else {
      var s := a + x;
      assert s != [] && s[0] == a[0] != '#' && s[1..] == a[1..] + x;
      SubstitutePlain(a[1..], x, vars);
      if Substitute(x, vars).Some? {
        Uncons(a);
        Associative([a[0]], a[1..], Substitute(x, vars).value);
      }
    }
  }

  /** A reference at the start of the text is replaced by its value, or the substitution fails. */
  lemma SubstituteAt(name: string, b: string, vars: Store)
    requires IsDigits(name)
    requires b == [] || !IsDigit(b[0])
    ensures Substitute("#" + name + b, vars) ==
      if Bound(vars, name) && Substitute(b, vars).Some? then Some(vars[name].value + Substitute(b, vars).value) else None
  {
    var s := "#" + name + b;
    assert s != [] && s[0] == '#' && s[1..] == name + b;
    DigitRunOfDigitsThen(name, b);
    Halves(name, b);
  }

  /**
    The text before the first reference is kept, the reference is replaced by the
    value bound to its name, and the rest is substituted in turn; a name without a
    value makes the substitution fail.
  */
  lemma SubstituteRef(a: string, name: string, b: string, vars: Store)
    requires NoHash(a) && IsDigits(name)
    requires b == [] || !IsDigit(b[0])
    ensures Substitute(a + "#" + name + b, vars) ==
      if Bound(vars, name) && Substitute(b, vars).Some? then Some(a + vars[name].value + Substitute(b, vars).value) else None
  {
    var x := "#" + name + b;
    assert a + "#" + name + b == a + x;
    SubstitutePlain(a, x, vars);
    SubstituteAt(name, b, vars);
    if Bound(vars, name) && Substitute(b, vars).Some? {
      Associative(a, vars[name].value, Substitute(b, vars).value);
    }
  }

  /** Every name in `names` is bound to a value. */
  predicate AllBound(vars: Store, names: seq<string>) {
    forall i | 0 <= i < |names| :: Bound(vars, names[i])
  }

  lemma AllBoundCons(vars: Store, name: string, names: seq<string>)
    ensures AllBound(vars, [name] + names) <==> Bound(vars, name) && AllBound(vars, names)
  {
    if Bound(vars, name) && AllBound(vars, names) {
      forall i | 0 <= i < |[name] + names|
        ensures Bound(vars, ([name] + names)[i])
      {
        if i > 0 {
          assert ([name] + names)[i] == names[i - 1];
        }
      }
    }
    if AllBound(vars, [name] + names) {
      forall i | 0 <= i < |names|
        ensures Bound(vars, names[i])
      {
        assert ([name] + names)[i + 1] == names[i];
      }
      assert ([name] + names)[0] == name;
    }
  }

  lemma NoHashConcat(a: string, b: string)
    ensures NoHash(a + b) <==> NoHash(a) && NoHash(b)
  {
    if NoHash(a) && NoHash(b) {
      forall k | 0 <= k < |a + b|
        ensures (a + b)[k] != '#'
      {
        if k >= |a| {
          assert (a + b)[k] == b[k - |a|];
        }
      }
    }
    if NoHash(a + b) {
      forall k | 0 <= k < |b|
        ensures b[k] != '#'
      {
        assert (a + b)[|a| + k] == b[k];
      }
      forall k | 0 <= k < |a|
        ensures a[k] != '#'
      {
        assert (a + b)[k] == a[k];
      }
    }
  }

  lemma BoundValueHasNoHash(vars: Store, name: string)
    requires Bound(vars, name)
    ensures ValidStore(vars) ==> NoHash(vars[name].value)
  {
    if ValidStore(vars) {
      CanonicalNoHash(vars[name].value);
    }
  }

  lemma CanonicalNoHash(s: string)
    requires IsCanonical(s)
    ensures NoHash(s)
  {
    var n := Parse(s).value;
    var t := Show(Trim(n));
    Words.ShowNumberChars(Trim(n));
    assert s == t;
    forall k | 0 <= k < |s|
      ensures s[k] != '#'
    {
      assert Words.IsNumberChar(t[k]);
    }
  }

  /** Registers every name of `names` that is not in the store yet as declared without a value. */
  function Declare(vars: Store, names: seq<string>): (r: Store)
    ensures r.Keys == vars.Keys + (set i | 0 <= i < |names| :: names[i])
    ensures forall name | name in vars :: r[name] == vars[name]
    ensures forall name | name in r && name !in vars :: r[name] == None
    decreases |names|
  {
    if names == [] then vars
    else
      var next := if names[0] in vars then vars else vars[names[0] := None];
      var r := Declare(next, names[1..]);
      assert (set i | 0 <= i < |names| :: names[i]) == {names[0]} + (set i | 0 <= i < |names[1..]| :: names[1..][i]) by {
        forall i | 0 <= i < |names|
          ensures names[i] in {names[0]} + (set j | 0 <= j < |names[1..]| :: names[1..][j])
        {
          if i > 0 {
            assert names[1..][i - 1] == names[i];
          }
        }
      }
      r
  }

  /** An assignment line `#<name>=<value>`. */
  datatype Assignment = Assignment(name: string, value: string)

  /** The assignment a line makes, if it has the form `#<digits>=<anything>` with at least one digit. */
  function AsAssignment(line: string): (a: Option<Assignment>)
    ensures a.Some? ==> a.value.name != [] && IsDigits(a.value.name)
    ensures a.Some? ==> line == "#" + a.value.name + "=" + a.value.value
  {
    if |line| > 0 && line[0] == '#' then
      var rest := line[1..];
      var n := DigitRun(rest);
      if 0 < n < |rest| && rest[n] == '=' then
        assert rest == rest[..n] + "=" + rest[n + 1..];
        Some(Assignment(rest[..n], rest[n + 1..]))
      else None
    else None
  }

  /** Writing an assignment out and reading it back gives the same assignment. */
  lemma AssignmentRoundTrip(name: string, value: string)
    requires name != [] && IsDigits(name)
    ensures AsAssignment("#" + name + "=" + value) == Some(Assignment(name, value))
  {
    var line := "#" + name + "=" + value;
    var rest := line[1..];
    assert rest == name + ("=" + value);
    DigitRunOfDigitsThen(name, "=" + value);
    assert rest[..|name|] == name;
    assert rest[|name| + 1..] == value;
  }

  /** The text of an assigned value, whitespace removed. */
  function ValueText(a: Assignment): string {
    Normalizer.Stripped(a.value)
  }

  /**
    Binds the assigned name to the canonical text of the assigned value, keeping
    every other binding; a value that is not a number is an error.
  */
  function Bind(vars: Store, a: Assignment): (r: Result<Store, Error>)
    ensures r.Err? <==> ParseValue(ValueText(a)).None?
    ensures r.Err? ==> r.error == MalformedNumber('#')
    ensures r.Ok? ==>
      && Bound(r.value, a.name)
      && r.value == vars[a.name := r.value[a.name]]
      && IsCanonical(r.value[a.name].value)
      && ParseValue(r.value[a.name].value) == ParseValue(ValueText(a))
    ensures r.Ok? && ValidStore(vars) ==> ValidStore(r.value)
  {
    match Canonical(ValueText(a))
    case Some(c) =>
      StoreUpdate(vars, a.name, c);
      Ok(vars[a.name := Some(c)])
    case None => Err(MalformedNumber('#'))
  }

  lemma StoreUpdate(vars: Store, name: string, c: string)
    requires IsCanonical(c)
    ensures ValidStore(vars) ==> ValidStore(vars[name := Some(c)])
  {
  }

  datatype Found = Found(line: string, vars: Store)

  /**
    `find_vars`: an assignment binds its name and turns the line into a comment; any
    other line is left alone and declares the names it references that the store
    does not know yet.
  */
  function FindVars(line: string, vars: Store): (r: Result<Found, Error>)
    ensures r.Err? <==> AsAssignment(line).Some? && Bind(vars, AsAssignment(line).value).Err?
    ensures r.Ok? && ValidStore(vars) ==> ValidStore(r.value.vars)
    ensures r.Ok? && AsAssignment(line).Some? ==>
      r.value.line == ";" + line && r.value.vars == Bind(vars, AsAssignment(line).value).value
    ensures r.Ok? && AsAssignment(line).None? ==>
      r.value.line == line && r.value.vars == Declare(vars, Refs(line))
  {
    match AsAssignment(line)
    case Some(a) =>
      (match Bind(vars, a)
       case Ok(bound) => Ok(Found(";" + line, bound))
       case Err(e) => Err(e))
    case None => Ok(Found(line, Declare(vars, Refs(line))))
  }

  /** After `find_vars` on a line, substituting it fails exactly when one of its references has no value. */
  lemma {:induction false} DeclaredButUnbound(line: string, vars: Store)
    requires AsAssignment(line).None?
    ensures var d := Declare(vars, Refs(line));
      Substitute(line, d).Some? <==> AllBound(vars, Refs(line))
  {
    var d := Declare(vars, Refs(line));
    var refs := Refs(line);
    forall i | 0 <= i < |refs|
      ensures Bound(d, refs[i]) <==> Bound(vars, refs[i])
    {
      assert refs[i] in (set j | 0 <= j < |refs| :: refs[j]);
    }
  }
}
