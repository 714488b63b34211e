/** Models of the few Go `strings` functions the tool relies on: `Split` on a
    one-character separator, `Join`, and `ToLower` (restricted to ASCII). */
module Text {

  /** Go's `strings.Split(s, sep)` for a one-character separator: the pieces of
      `s` between separators, in order; an empty `s` gives one empty piece. */
  function Split(s: string, sep: char): (parts: seq<string>)
    ensures |parts| >= 1
    ensures forall i | 0 <= i < |parts| :: sep !in parts[i]
    decreases |s|
  {
    if s == [] then [[]]
    else
      var rest := Split(s[1..], sep);
      if s[0] == sep then [[]] + rest
      else [[s[0]] + rest[0]] + rest[1..]
  }

  /** Go's `strings.Join(parts, sep)`. */
  function Join(parts: seq<string>, sep: string): (joined: string)
    decreases |parts|
  {
    if |parts| == 0 then ""
    else if |parts| == 1 then parts[0]
    else parts[0] + sep + Join(parts[1..], sep)
  }

  /** Every occurrence of `c` in `s` replaced by `r`. */
  function ReplaceAll(s: string, c: char, r: string): (replaced: string)
    decreases |s|
  {
    if s == [] then ""
    else (if s[0] == c then r else [s[0]]) + ReplaceAll(s[1..], c, r)
  }

  /** `unicode.ToLower` on the characters whose lower case is ASCII: the
      letters 'A' to 'Z', the capital I with dot above (U+0130) and the
      Kelvin sign (U+212A). Every other character is kept. */
  function LowerChar(c: char): (lower: char)
  {
    if 'A' <= c <= 'Z' then (c as int - 'A' as int + 'a' as int) as char
    else if c == '\U{0130}' then 'i'
    else if c == '\U{212A}' then 'k'
    else c
  }

  /** `strings.ToLower`, on the characters whose lower case is ASCII. */
  function ToLower(s: string): (r: string)
    ensures |r| == |s|
    ensures forall i | 0 <= i < |s| :: r[i] == LowerChar(s[i])
  {
    seq(|s|, i requires 0 <= i < |s| => LowerChar(s[i]))
  }

  /** A comma-separated flag value as a list: the empty value is no list, any
      other value is split at its commas. */
  function SplitList(s: string): (list: seq<string>)
    ensures list == [] <==> s == ""
  {
    if s != "" then Split(s, ',') else []
  }

  /** Splitting at the first separator: the first piece is everything before it. */
  lemma {:induction false} SplitPrefix(x: string, sep: char, y: string)
    requires sep !in x
    ensures Split(x + y, sep) == [x + Split(y, sep)[0]] + Split(y, sep)[1..]
    decreases |x|
  {
    if x == [] {
      assert x + y == y;
      var parts := Split(y, sep);
      assert [] + parts[0] == parts[0];
      assert parts == [parts[0]] + parts[1..];
    } else {
      assert (x + y)[1..] == x[1..] + y;
      SplitPrefix(x[1..], sep, y);
      assert [x[0]] + (x[1..] + Split(y, sep)[0]) == x + Split(y, sep)[0];
    }
  }

  /** Joining a list whose first piece is extended by `c` extends the join by `c`. */
  lemma {:induction false} JoinExtendFirst(c: string, parts: seq<string>, glue: string)
    requires |parts| >= 1
    ensures Join([c + parts[0]] + parts[1..], glue) == c + Join(parts, glue)
  {
    var ext := [c + parts[0]] + parts[1..];
    if |parts| > 1 {
      assert ext[1..] == parts[1..];
    }
  }

  /** Joining a list that starts with an empty piece puts the glue in front. */
  lemma {:induction false} JoinEmptyFirst(parts: seq<string>, glue: string)
    requires |parts| >= 1
    ensures Join([[]] + parts, glue) == glue + Join(parts, glue)
  {
    assert ([[]] + parts)[1..] == parts;
  }

  /** Joining the pieces of a split with the separator gives back the string. */
  lemma {:induction false} JoinSplit(s: string, sep: char)
    ensures Join(Split(s, sep), [sep]) == s
    decreases |s|
  {
    if s != [] {
      JoinSplit(s[1..], sep);
      var rest := Split(s[1..], sep);
      if s[0] == sep {
        JoinEmptyFirst(rest, [sep]);
      } else {
        JoinExtendFirst([s[0]], rest, [sep]);
      }
      assert s == [s[0]] + s[1..];
    }
  }

  /** Splitting a join gives back the pieces, when no piece holds the separator. */
  lemma {:induction false} SplitJoin(parts: seq<string>, sep: char)
    requires |parts| >= 1
    requires forall i | 0 <= i < |parts| :: sep !in parts[i]
    ensures Split(Join(parts, [sep]), sep) == parts
    decreases |parts|
  {
    if |parts| == 1 {
      SplitPrefix(parts[0], sep, []);
      assert parts[0] + [] == parts[0];
    } else {
      var tail := Join(parts[1..], [sep]);
      SplitJoin(parts[1..], sep);
      assert Join(parts, [sep]) == parts[0] + ([sep] + tail);
      SplitPrefix(parts[0], sep, [sep] + tail);
      assert ([sep] + tail)[1..] == tail;
      assert Split([sep] + tail, sep) == [[]] + Split(tail, sep);
      assert parts[0] + [] == parts[0];
    }
  }

  /** Joining the pieces of a split with `sep` followed by `glue` puts `glue`
      after every separator of the original string. */
  lemma {:induction false} JoinSplitReplaces(s: string, sep: char, glue: string)
    ensures Join(Split(s, sep), [sep] + glue) == ReplaceAll(s, sep, [sep] + glue)
    decreases |s|
  {
    if s != [] {
      JoinSplitReplaces(s[1..], sep, glue);
      var rest := Split(s[1..], sep);
      if s[0] == sep {
        JoinEmptyFirst(rest, [sep] + glue);
      } else {
        JoinExtendFirst([s[0]], rest, [sep] + glue);
      }
    }
  }
}
