/**
 * Quoting of a display name inside an OData string literal: the report
 * doubles every single quote (`display_name.replace("'", "''")`).
 */
module Escaping {
  import opened Wrappers

  const Quote: char := '\''

  /** Number of occurrences of `c` in `s`. */
  function Count(s: string, c: char): (n: nat)
    ensures n <= |s|
    ensures n == 0 <==> c !in s
  {
    if s == [] then 0 else (if s[0] == c then 1 else 0) + Count(s[1..], c)
  }

  /** `s.replace("'", "''")`: every single quote doubled, every other character kept. */
  function Escape(s: string): (t: string)
    ensures |t| == |s| + Count(s, Quote)
  {
    if s == [] then []
    else (if s[0] == Quote then [Quote, Quote] else [s[0]]) + Escape(s[1..])
  }

  /** `t.replace("''", "'")`: pairs of quotes, read left to right, become one quote. */
  function Unescape(t: string): (s: string)
    ensures |s| <= |t|
  {
    if t == [] then []
    else if |t| >= 2 && t[0] == Quote && t[1] == Quote then [Quote] + Unescape(t[2..])
    else [t[0]] + Unescape(t[1..])
  }

  /** Every quote of `t` is one of an adjacent pair, pairs read left to right: no quote is left unpaired. */
  predicate QuotesPaired(t: string)
    decreases |t|
  {
    if t == [] then true
    else if t[0] == Quote then |t| >= 2 && t[1] == Quote && QuotesPaired(t[2..])
    else QuotesPaired(t[1..])
  }

  /** Undoubling the quotes recovers the name. */
  lemma {:induction false} UnescapeEscape(s: string)
    ensures Unescape(Escape(s)) == s
  {
    if s != [] {
      UnescapeEscape(s[1..]);
      if s[0] == Quote {
        assert Escape(s) == [Quote, Quote] + Escape(s[1..]);
        assert Escape(s)[2..] == Escape(s[1..]);
      } else {
        assert Escape(s) == [s[0]] + Escape(s[1..]);
        assert Escape(s)[1..] == Escape(s[1..]);
      }
    }
  }

  /** Distinct names give distinct filter values. */
  lemma EscapeInjective(a: string, b: string)
    requires Escape(a) == Escape(b)
    ensures a == b
  {
    UnescapeEscape(a);
    UnescapeEscape(b);
  }

  /** An escaped name has no unpaired quote. */
  lemma {:induction false} EscapePaired(s: string)
    ensures QuotesPaired(Escape(s))
  {
    if s != [] {
      EscapePaired(s[1..]);
      if s[0] == Quote {
        assert Escape(s)[2..] == Escape(s[1..]);
      } else {
        assert Escape(s)[1..] == Escape(s[1..]);
      }
    }
  }

  /** Conversely, every text without an unpaired quote is the escaping of some name. */
  lemma {:induction false} PairedIsEscaped(t: string)
    requires QuotesPaired(t)
    ensures Escape(Unescape(t)) == t
  {
    if t != [] {
      if t[0] == Quote {
        PairedIsEscaped(t[2..]);
        assert Unescape(t) == [Quote] + Unescape(t[2..]);
        assert ([Quote] + Unescape(t[2..]))[1..] == Unescape(t[2..]);
      } else {
        PairedIsEscaped(t[1..]);
        assert Unescape(t) == [t[0]] + Unescape(t[1..]);
        assert ([t[0]] + Unescape(t[1..]))[1..] == Unescape(t[1..]);
      }
    }
  }

  /**
   * How an OData service reads the body of a string literal whose opening
   * quote is already consumed: `''` is one quote, a lone `'` closes the
   * literal. Yields the value and the text after the closing quote, or None
   * when the literal is never closed.
   */
  function ReadLiteral(t: string): (r: Option<(string, string)>)
    decreases |t|
  {
    if t == [] then None
    else if t[0] == Quote then
      if |t| >= 2 && t[1] == Quote then
        match ReadLiteral(t[2..])
        case None => None
        case Some(p) => Some(([Quote] + p.0, p.1))
      else Some(([], t[1..]))
    else
      match ReadLiteral(t[1..])
      case None => None
      case Some(p) => Some(([t[0]] + p.0, p.1))
  }

  /** A doubled quote reads as one quote of the value. */
  lemma ReadPair(t: string, value: string, after: string)
    requires ReadLiteral(t) == Some((value, after))
    ensures ReadLiteral([Quote, Quote] + t) == Some(([Quote] + value, after))
  {
    assert ([Quote, Quote] + t)[2..] == t;
  }

  /** Any other character reads as itself. */
  lemma ReadPlain(c: char, t: string, value: string, after: string)
    requires c != Quote && ReadLiteral(t) == Some((value, after))
    ensures ReadLiteral([c] + t) == Some(([c] + value, after))
  {
    assert ([c] + t)[1..] == t;
  }

  /** Regrouping a concatenation of four pieces. */
  lemma Regroup<T>(a: seq<T>, b: seq<T>, c: seq<T>, d: seq<T>)
    ensures a + b + c + d == a + (b + c + d)
  {
  }

  /**
   * An escaped name followed by a closing quote is read back as exactly that
   * name, and the literal ends at that quote: the name cannot close the
   * literal early or inject text after it.
   */
  lemma {:induction false} ReadEscaped(s: string, rest: string)
    requires rest == [] || rest[0] != Quote
    ensures ReadLiteral(Escape(s) + [Quote] + rest) == Some((s, rest))
  {
    if s == [] {
      assert Escape(s) + [Quote] + rest == [Quote] + rest;
      assert ([Quote] + rest)[1..] == rest;
    } else {
      var tail := Escape(s[1..]) + [Quote] + rest;
      var head := if s[0] == Quote then [Quote, Quote] else [s[0]];
      assert Escape(s) + [Quote] + rest == head + tail by {
        assert Escape(s) == head + Escape(s[1..]);
        Regroup(head, Escape(s[1..]), [Quote], rest);
      }
      assert ReadLiteral(head + tail) == Some((s, rest)) by {
        ReadEscaped(s[1..], rest);
        if s[0] == Quote {
          ReadPair(tail, s[1..], rest);
        } else {
          ReadPlain(s[0], tail, s[1..], rest);
        }
        assert [s[0]] + s[1..] == s;
      }
    }
  }
}
