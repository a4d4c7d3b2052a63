// The order in which SQLite sorts the cells of a column (`ORDER BY`, BINARY
// collation): NULL first, then numbers by value, then text compared code
// point by code point (the order of their UTF-8 bytes), a proper prefix first.

module Ordering {
  import opened Common

  /** Text order of the BINARY collation. */
  predicate TextLe(s: string, t: string)
  {
    s == [] || (t != [] && (s[0] < t[0] || (s[0] == t[0] && TextLe(s[1..], t[1..]))))
  }

  /** Order of two cells: NULL < numbers < text. */
  predicate CellLe(a: Cell, b: Cell)
  {
    match (a, b)
    case (None, _) => true
    case (Some(_), None) => false
    case (Some(Num(x)), Some(Num(y))) => x <= y
    case (Some(Num(_)), Some(Text(_))) => true
    case (Some(Text(_)), Some(Num(_))) => false
    case (Some(Text(s)), Some(Text(t))) => TextLe(s, t)
  }

  lemma {:induction false} TextLeTotal(s: string, t: string)
    ensures TextLe(s, t) || TextLe(t, s)
  {
    if s != [] && t != [] && s[0] == t[0] {
      TextLeTotal(s[1..], t[1..]);
    }
  }

  lemma {:induction false} TextLeTransitive(s: string, t: string, u: string)
    requires TextLe(s, t) && TextLe(t, u)
    ensures TextLe(s, u)
  {
    if s != [] && s[0] == t[0] && t[0] == u[0] {
      TextLeTransitive(s[1..], t[1..], u[1..]);
    }
  }

  lemma {:induction false} TextLeAntisymmetric(s: string, t: string)
    requires TextLe(s, t) && TextLe(t, s)
    ensures s == t
  {
    if s != [] {
      TextLeAntisymmetric(s[1..], t[1..]);
      assert s == [s[0]] + s[1..] && t == [t[0]] + t[1..];
    }
  }

  /** The cell order is total, so any two names can be ordered. */
  lemma CellLeTotal(a: Cell, b: Cell)
    ensures CellLe(a, b) || CellLe(b, a)
  {
    if a.Some? && b.Some? && a.value.Text? && b.value.Text? {
      TextLeTotal(a.value.s, b.value.s);
    }
  }

  /** The cell order is transitive. */
  lemma CellLeTransitive(a: Cell, b: Cell, c: Cell)
    requires CellLe(a, b) && CellLe(b, c)
    ensures CellLe(a, c)
  {
    if a.Some? && b.Some? && c.Some? && a.value.Text? && b.value.Text? && c.value.Text? {
      TextLeTransitive(a.value.s, b.value.s, c.value.s);
    }
  }

  /** Two cells ordered both ways are equal. */
  lemma CellLeAntisymmetric(a: Cell, b: Cell)
    requires CellLe(a, b) && CellLe(b, a)
    ensures a == b
  {
    if a.Some? && b.Some? && a.value.Text? && b.value.Text? {
      TextLeAntisymmetric(a.value.s, b.value.s);
    }
  }
}
