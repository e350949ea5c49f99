/**
 * SQL character string literals (ISO/IEC 9075-2, section 5.3): a literal is
 * delimited by single quotes, and a quote inside it is written as two
 * quotes. The migration script escapes names with `replace("'", "''")`.
 */
module SqlLiteral {
  import opened Wrappers

  const Quote: char := '\''

  /** `s.replace("'", "''")`: every quote doubled, every other character kept. */
  function Escape(s: string): string {
    if s == [] then []
    else (if s[0] == Quote then [Quote, Quote] else [s[0]]) + Escape(s[1..])
  }

  /** Text in which every quote, read left to right, is the first of a doubled pair. */
  predicate IsEscaped(t: string) {
    if t == [] then true
    else if t[0] == Quote then |t| >= 2 && t[1] == Quote && IsEscaped(t[2..])
    else IsEscaped(t[1..])
  }

  /** Collapse each doubled quote back to one. */
  function Unescape(t: string): string
    requires IsEscaped(t)
  {
    if t == [] then []
    else if t[0] == Quote then [Quote] + Unescape(t[2..])
    else [t[0]] + Unescape(t[1..])
  }

  /** The characters of `s` other than quotes, in order. */
  function NonQuotes(s: string): string {
    if s == [] then []
    else (if s[0] == Quote then [] else [s[0]]) + NonQuotes(s[1..])
  }

  function QuoteCount(s: string): nat {
    if s == [] then 0 else (if s[0] == Quote then 1 else 0) + QuoteCount(s[1..])
  }

  /** Escaping adds exactly one character per quote and changes no other character. */
  lemma {:induction false} EscapeChangesOnlyQuotes(s: string)
    ensures |Escape(s)| == |s| + QuoteCount(s)
    ensures NonQuotes(Escape(s)) == NonQuotes(s)
    ensures QuoteCount(Escape(s)) == 2 * QuoteCount(s)
  {
    if s != [] {
      EscapeChangesOnlyQuotes(s[1..]);
      var head := if s[0] == Quote then [Quote, Quote] else [s[0]];
      var e := Escape(s);
      assert e == head + Escape(s[1..]);
      if s[0] == Quote {
        assert e[1..] == [Quote] + Escape(s[1..]);
        assert e[1..][1..] == Escape(s[1..]);
      } else {
        assert e[1..] == Escape(s[1..]);
      }
    }
  }

  /** Undoubling the escaped text gives back the input. */
  lemma {:induction false} UnescapeEscape(s: string)
    ensures IsEscaped(Escape(s))
    ensures Unescape(Escape(s)) == s
  {
    if s != [] {
      UnescapeEscape(s[1..]);
      var e := Escape(s);
      if s[0] == Quote {
        assert e[2..] == Escape(s[1..]);
      } else {
        assert e[1..] == Escape(s[1..]);
      }
    }
  }

  /** Every escaped text is the escape of something: the two maps are inverse. */
  lemma {:induction false} EscapeUnescape(t: string)
    requires IsEscaped(t)
    ensures Escape(Unescape(t)) == t
    decreases |t|
  {
    if t != [] {
      if t[0] == Quote {
        EscapeUnescape(t[2..]);
        var u := Unescape(t);
        assert u[1..] == Unescape(t[2..]);
        assert t == [Quote, Quote] + t[2..];
      } else {
        EscapeUnescape(t[1..]);
        var u := Unescape(t);
        assert u[1..] == Unescape(t[1..]);
        assert t == [t[0]] + t[1..];
      }
    }
  }

  /** `'` + escaped text + `'`: the literal the script writes between its quotes. */
  function Literal(s: string): string {
    [Quote] + Escape(s) + [Quote]
  }

  /**
   * Read the body of a literal whose opening quote has been consumed: a
   * doubled quote stands for one quote, a single quote ends the literal.
   * Returns the represented text and what follows the closing quote.
   */
  function ScanBody(t: string): Option<(string, string)>
    decreases |t|
  {
    if t == [] then None
    else if t[0] == Quote then
      if |t| >= 2 && t[1] == Quote then
        match ScanBody(t[2..])
        case None => None
        case Some(p) => Some(([Quote] + p.0, p.1))
      else Some(([], t[1..]))
    else
      match ScanBody(t[1..])
      case None => None
      case Some(p) => Some(([t[0]] + p.0, p.1))
  }

  /** Read one literal from the start of `t`. */
  function ScanLiteral(t: string): Option<(string, string)> {
    if t != [] && t[0] == Quote then ScanBody(t[1..]) else None
  }

  /**
   * A reader of SQL text recovers exactly `s` from `Literal(s)` and stops at
   * its closing quote, whatever `s` contains, provided the next character is
   * not itself a quote (in the script it is always `,`, `)` or `;`).
   */
  lemma {:induction false} ScanLiteralOfEscaped(s: string, rest: string)
    requires rest == [] || rest[0] != Quote
    ensures ScanLiteral(Literal(s) + rest) == Some((s, rest))
  {
    assert (Literal(s) + rest)[1..] == Escape(s) + [Quote] + rest;
    ScanBodyOfEscaped(s, rest);
  }

  lemma {:induction false} ScanBodyOfEscaped(s: string, rest: string)
    requires rest == [] || rest[0] != Quote
    ensures ScanBody(Escape(s) + [Quote] + rest) == Some((s, rest))
  {
    var t := Escape(s) + [Quote] + rest;
    if s == [] {
      assert t == [Quote] + rest;
      assert t[1..] == rest;
    } else if s[0] == Quote {
      assert t == [Quote, Quote] + (Escape(s[1..]) + [Quote] + rest);
      assert t[2..] == Escape(s[1..]) + [Quote] + rest;
      ScanBodyOfEscaped(s[1..], rest);
      assert s == [Quote] + s[1..];
    } else {
      assert t == [s[0]] + (Escape(s[1..]) + [Quote] + rest);
      assert t[1..] == Escape(s[1..]) + [Quote] + rest;
      ScanBodyOfEscaped(s[1..], rest);
      assert s == [s[0]] + s[1..];
    }
  }
}
