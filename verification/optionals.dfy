/**
  The toolbelt's `Optional<T>`: a value that is either present (`Some`) or
  absent (`None`), built from a possibly-null Java reference.
 */
module Optionals {
  import opened Java

  /** Message carried by the exception that `get()` throws on `None`. */
  const NO_SUCH_ELEMENT_MESSAGE: string :=
    "get() called on an empty optional! Use getOrElse() or check for existence with isDefined() first."

  datatype Error = NoSuchElementException(message: string)

  /** Outcome of a call that either returns a value or throws. */
  datatype Result<T> = Ok(value: T) | Err(error: Error)

  /** `Some` never holds `null`: its value has the non-null type `T`. */
  datatype Optional<T> = Some(value: T) | None {

    predicate IsDefined() {
      Some?
    }

    predicate IsEmpty() {
      !IsDefined()
    }

    /** Returns the held value, or throws `NoSuchElementException` on `None`. */
    function Get(): (r: Result<T>)
      ensures r.Ok? <==> IsDefined()
      ensures r.Ok? ==> this == Some(r.value)
      ensures r.Err? ==> r.error == NoSuchElementException(NO_SUCH_ELEMENT_MESSAGE)
    {
      match this
      case Some(v) => Ok(v)
      case None => Err(NoSuchElementException(NO_SUCH_ELEMENT_MESSAGE))
    }

    /** The held value if there is one, `default` otherwise. */
    function GetOrElse(default: T): (r: T)
      ensures IsDefined() ==> Get() == Ok(r)
      ensures IsEmpty() ==> r == default
    {
      if IsDefined() then value else default
    }

    /** This optional if it holds a value, `alternative` otherwise. */
    function Or(alternative: Optional<T>): (r: Optional<T>)
      ensures IsDefined() ==> r == this
      ensures IsEmpty() ==> r == alternative
      ensures r.IsDefined() <==> IsDefined() || alternative.IsDefined()
    {
      if IsDefined() then this else alternative
    }

    /** `toString()`, given the `toString()` of the held value. */
    function ToString(render: T -> string): (r: string)
      ensures IsEmpty() ==> r == "None"
      ensures IsDefined() ==>
        && |r| >= 6
        && r[..5] == "Some("
        && r[5..|r| - 1] == render(value)
        && r[|r| - 1] == ')'
    {
      match this
      case Some(v) => "Some(" + render(v) + ")"
      case None => "None"
    }
  }

  /** `Optional.with(value)`: `None` for `null`, `Some(value)` otherwise. */
  function With<T>(v: Nullable<T>): (r: Optional<T>)
    ensures r.IsDefined() <==> v.Ref?
    ensures v.Ref? ==> r.Get() == Ok(v.obj)
  {
    if v.Null? then None else Some(v.obj)
  }

  /** `Optional.empty()`. */
  function Empty<T>(): (r: Optional<T>)
    ensures r.IsEmpty()
    ensures r.Get().Err?
  {
    None
  }

  /** `a.equals(o)`: `o` must be a non-null optional of the same variant whose
      held value (if any) equals `a`'s; element equality is `==` on `T`. */
  function Equals<T(==)>(a: Optional<T>, o: Nullable<Optional<T>>): (r: bool)
    ensures r <==> o == Ref(a)
  {
    match o
    case Null => false
    case Ref(b) =>
      if a.Some? != b.Some? then false
      else if a.Some? then a.value == b.value
      else b.None?
  }

  /** `isDefined()` decides how every other operation behaves, and
      `isEmpty()` is its negation. */
  lemma DefinednessDecides<T>(o: Optional<T>, alternative: Optional<T>, default: T, render: T -> string)
    ensures o.IsEmpty() == !o.IsDefined()
    ensures o.IsDefined() <==> o.Get().Ok?
    ensures o.IsDefined() ==> o.Or(alternative) == o && o.GetOrElse(default) == o.Get().value
    ensures o.IsEmpty() ==> o.Or(alternative) == alternative && o.GetOrElse(default) == default
    ensures o.IsEmpty() <==> o.ToString(render) == "None"
  {
  }

  /** `with` and `get` round-trip on non-null references; `get` fails
      exactly on `null`. */
  lemma WithGetRoundTrip<T>(v: Nullable<T>)
    ensures v.Ref? ==> With(v).Get() == Ok(v.obj)
    ensures v.Null? ==> With(v) == Empty() && With(v).Get() == Err(NoSuchElementException(NO_SUCH_ELEMENT_MESSAGE))
  {
  }

  /** `or` is associative with `None` as its unit, and `getOrElse`
      distributes over it. */
  lemma OrLaws<T>(a: Optional<T>, b: Optional<T>, c: Optional<T>, d: T)
    ensures None.Or(a) == a
    ensures a.Or(None) == a
    ensures a.Or(b).Or(c) == a.Or(b.Or(c))
    ensures a.Or(b).GetOrElse(d) == a.GetOrElse(b.GetOrElse(d))
  {
  }

  /** `equals` is an equivalence on non-null arguments, and any two `None`s
      are equal. */
  lemma EqualsIsEquivalence<T>(a: Optional<T>, b: Optional<T>, c: Optional<T>)
    ensures Equals(a, Ref(a))
    ensures Equals(a, Ref(b)) == Equals(b, Ref(a))
    ensures Equals(a, Ref(b)) && Equals(b, Ref(c)) ==> Equals(a, Ref(c))
    ensures a.None? && b.None? ==> Equals(a, Ref(b))
    ensures !Equals(a, Null)
  {
  }

  /** The rendering tells the variants apart and, when the element rendering
      is injective, determines the optional. */
  lemma {:induction false} ToStringInjective<T>(render: T -> string, a: Optional<T>, b: Optional<T>)
    requires forall x, y :: render(x) == render(y) ==> x == y
    ensures a.ToString(render) == b.ToString(render) ==> a == b
  {
    if a.ToString(render) == b.ToString(render) {
      var s := a.ToString(render);
      if a.Some? && b.Some? {
        assert render(a.value) == s[5..|s| - 1] == render(b.value);
      }
    }
  }

  /** The unit-test expectations. */
  lemma Examples()
    ensures Empty<int>().IsEmpty() && !Empty<int>().IsDefined()
    ensures With(Ref(3)).IsDefined() && With(Ref(3)).Get() == Ok(3)
    ensures Empty<int>().GetOrElse(3) == 3
    ensures Empty<int>().Or(With(Ref(5))) == With(Ref(5))
    ensures With(Ref(3)).Or(With(Ref(5))) == With(Ref(3))
    ensures Empty<int>().ToString(_ => "3") == "None"
    ensures With(Ref(3)).ToString(n => if n == 3 then "3" else "?") == "Some(3)"
  {
  }
}
