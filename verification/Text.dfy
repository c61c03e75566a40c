/** Strings with the JavaScript meaning of white space, `trim()` and `join()`. */
module Text {

  /** The code points that `String.prototype.trim` removes. */
  predicate IsWhite(c: char) {
    var u := c as int;
    || 9 <= u <= 13 || u == 0x20 || u == 0xA0 || u == 0x1680 || 0x2000 <= u <= 0x200A
    || u == 0x2028 || u == 0x2029 || u == 0x202F || u == 0x205F || u == 0x3000 || u == 0xFEFF
  }

  predicate IsBreak(c: char) {
    c == '\n' || c == '\r'
  }

  ghost predicate AllWhite(s: string) {
    forall c <- s :: IsWhite(c)
  }

  ghost predicate Trimmed(s: string) {
    s != "" ==> !IsWhite(s[0]) && !IsWhite(s[|s| - 1])
  }

  ghost predicate Starts(s: string, c: char) {
    s != "" && s[0] == c
  }

  lemma StartsConcat(a: string, b: string, c: char)
    ensures Starts(a + b, c) <==> Starts(a, c) || (a == "" && Starts(b, c))
  {
    if a == "" {
      assert a + b == b;
    }
  }

  function TrimStart(s: string): string {
    if s != "" && IsWhite(s[0]) then TrimStart(s[1..]) else s
  }

  function TrimEnd(s: string): string {
    if s != "" && IsWhite(s[|s| - 1]) then TrimEnd(s[..|s| - 1]) else s
  }

  function Trim(s: string): string {
    TrimEnd(TrimStart(s))
  }

  function Join(parts: seq<string>, separator: string): string {
    if parts == [] then ""
    else if |parts| == 1 then parts[0]
    else parts[0] + separator + Join(parts[1..], separator)
  }

  lemma Assoc<T>(a: seq<T>, b: seq<T>, c: seq<T>)
    ensures a + (b + c) == a + b + c
  {
  }

  lemma {:induction false} TrimStartSplits(s: string) returns (white: string)
    ensures s == white + TrimStart(s) && AllWhite(white)
    ensures TrimStart(s) != "" ==> !IsWhite(TrimStart(s)[0])
  {
    hide IsWhite;
    if s != "" && IsWhite(s[0]) {
      var w := TrimStartSplits(s[1..]);
      Assoc([s[0]], w, TrimStart(s[1..]));
      white := [s[0]] + w;
    } else {
      white := "";
    }
  }

  lemma {:induction false} TrimEndSplits(s: string) returns (white: string)
    ensures s == TrimEnd(s) + white && AllWhite(white)
    ensures TrimEnd(s) != "" ==> !IsWhite(TrimEnd(s)[|TrimEnd(s)| - 1])
  {
    hide IsWhite;
    if s != "" && IsWhite(s[|s| - 1]) {
      var t, last := s[..|s| - 1], [s[|s| - 1]];
      var w := TrimEndSplits(t);
      Assoc(TrimEnd(t), w, last);
      assert s == t + last;
      white := w + last;
    } else {
      white := "";
    }
  }

  /** What `trim` leaves has no white end, is made of the input's characters, and is empty exactly on blank input. */
  lemma TrimTrims(s: string)
    ensures Trimmed(Trim(s))
    ensures forall c <- Trim(s) :: c in s
    ensures Trim(s) == "" <==> AllWhite(s)
  {
    hide IsWhite, TrimStart, TrimEnd;
    var a := TrimStartSplits(s);
    var b := TrimEndSplits(TrimStart(s));
    var t := TrimStart(s);
    if t != "" {
      assert t[0] in s;
      assert TrimEnd(t) == "" ==> t == b;
      assert t[0] in t;
      assert TrimEnd(t) != "" ==> TrimEnd(t)[0] == t[0];
    }
  }

  /** Trimming takes white space off the two ends, and leaves what is between. */
  lemma TrimKeepsMiddle(s: string) returns (before: string, after: string)
    ensures s == before + Trim(s) + after && AllWhite(before) && AllWhite(after)
  {
    hide IsWhite, TrimStart, TrimEnd;
    before := TrimStartSplits(s);
    after := TrimEndSplits(TrimStart(s));
    Assoc(before, Trim(s), after);
  }

  /** The white space and line ends of ECMAScript, one by one. */
  lemma WhiteSpace(c: char)
    ensures IsWhite(c) <==> c as int in {
      0x9, 0xA, 0xB, 0xC, 0xD, 0x20, 0xA0, 0x1680, 0x2000, 0x2001, 0x2002, 0x2003, 0x2004, 0x2005, 0x2006, 0x2007,
      0x2008, 0x2009, 0x200A, 0x2028, 0x2029, 0x202F, 0x205F, 0x3000, 0xFEFF}
  {
  }

  lemma TrimFixed(s: string)
    requires Trimmed(s)
    ensures Trim(s) == s
  {
  }

  lemma TrimIdempotent(s: string)
    ensures Trim(Trim(s)) == Trim(s)
  {
    TrimTrims(s);
    TrimFixed(Trim(s));
  }

  lemma {:induction false} JoinCharacters(parts: seq<string>, c: char)
    requires c in Join(parts, ",")
    ensures c == ',' || exists part <- parts :: c in part
  {
    if |parts| > 1 {
      if c !in parts[0] && c != ',' {
        JoinCharacters(parts[1..], c);
      } else {
        assert c in parts[0] ==> parts[0] in parts;
      }
    } else if |parts| == 1 {
      assert parts[0] in parts;
    }
  }
}
