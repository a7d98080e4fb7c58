/** The JavaScript string operations the wizard relies on: `trim`, `split` on a one-character
    separator, `includes` and `toLowerCase`. Strings are sequences of Unicode characters. */
module Text {

  /** JavaScript's WhiteSpace and LineTerminator characters, the ones `trim` and
      `parseFloat` skip: tab, line feed, vertical tab, form feed, carriage return, space,
      no-break space, the Unicode space separators, line and paragraph separators, and
      the byte-order mark. */
  predicate IsWhitespace(c: char)
    ensures IsWhitespace(c) ==> c != '-' && c != '.' && !('0' <= c <= '9')
  {
    c == '\t' || c == '\n' || c == '\U{000B}' || c == '\U{000C}' || c == '\r' || c == ' ' ||
    c == '\U{00A0}' || c == '\U{1680}' || ('\U{2000}' <= c <= '\U{200A}') ||
    c == '\U{2028}' || c == '\U{2029}' || c == '\U{202F}' || c == '\U{205F}' ||
    c == '\U{3000}' || c == '\U{FEFF}'
  }

  /** `s.trimStart()`: the suffix left after dropping the leading whitespace. */
  function TrimStart(s: string): (r: string)
    ensures |r| <= |s| && r == s[|s| - |r|..]
    ensures forall i | 0 <= i < |s| - |r| :: IsWhitespace(s[i])
    ensures r == [] || !IsWhitespace(r[0])
  {
    if s != [] && IsWhitespace(s[0]) then TrimStart(s[1..]) else s
  }

  /** `s.trimEnd()`: the prefix left after dropping the trailing whitespace. */
  function TrimEnd(s: string): (r: string)
    ensures |r| <= |s| && r == s[..|r|]
    ensures forall i | |r| <= i < |s| :: IsWhitespace(s[i])
    ensures r == [] || !IsWhitespace(r[|r| - 1])
  {
    if s != [] && IsWhitespace(s[|s| - 1]) then TrimEnd(s[..|s| - 1]) else s
  }

  /** `s.trim()`. It is empty exactly when `s` is blank, and otherwise starts and ends
      with a non-whitespace character. */
  function Trim(s: string): (r: string)
    ensures r == [] <==> forall i | 0 <= i < |s| :: IsWhitespace(s[i])
    ensures r == [] || (!IsWhitespace(r[0]) && !IsWhitespace(r[|r| - 1]))
  {
    TrimEnd(TrimStart(s))
  }

  /** A string with no whitespace at either end is its own trim. */
  lemma TrimUnpadded(s: string)
    requires s == [] || (!IsWhitespace(s[0]) && !IsWhitespace(s[|s| - 1]))
    ensures Trim(s) == s
  {
  }

  /** Two separator-free strings joined by one separator split back into the two. */
  lemma SplitOnce(x: string, y: string, sep: char)
    requires sep !in x && sep !in y
    ensures Split(x + [sep] + y, sep) == [x, y]
  {
    assert Join([x, y], sep) == x + [sep] + y by {
      assert [x, y][1..] == [y];
    }
    SplitJoin([x, y], sep);
  }

  /** Whitespace in front of `s` is dropped by `TrimStart`. */
  lemma {:induction false} TrimStartSkips(pad: string, s: string)
    requires forall i | 0 <= i < |pad| :: IsWhitespace(pad[i])
    ensures TrimStart(pad + s) == TrimStart(s)
  {
    if pad != [] {
      assert (pad + s)[1..] == pad[1..] + s;
      TrimStartSkips(pad[1..], s);
    } else {
      assert pad + s == s;
    }
  }

  /** Whitespace after `s` is dropped by `TrimEnd`. */
  lemma {:induction false} TrimEndSkips(s: string, pad: string)
    requires forall i | 0 <= i < |pad| :: IsWhitespace(pad[i])
    ensures TrimEnd(s + pad) == TrimEnd(s)
  {
    if pad != [] {
      assert (s + pad)[..|s + pad| - 1] == s + pad[..|pad| - 1];
      TrimEndSkips(s, pad[..|pad| - 1]);
    } else {
      assert s + pad == s;
    }
  }

  /** Trimming a word padded with whitespace on both sides gives back the word. */
  lemma TrimPadded(left: string, s: string, right: string)
    requires forall i | 0 <= i < |left| :: IsWhitespace(left[i])
    requires forall i | 0 <= i < |right| :: IsWhitespace(right[i])
    requires s == [] || (!IsWhitespace(s[0]) && !IsWhitespace(s[|s| - 1]))
    ensures Trim(left + s + right) == s
  {
    var padded := left + s + right;
    if s == [] {
      assert forall i | 0 <= i < |padded| :: IsWhitespace(padded[i]) by {
        assert padded == left + right;
      }
    } else {
      assert padded == left + (s + right);
      TrimStartSkips(left, s + right);
      assert (s + right)[0] == s[0];
      TrimEndSkips(s, right);
    }
  }

  /** `parts.join(sep)`. */
  function Join(parts: seq<string>, sep: char): string
  {
    if |parts| == 0 then []
    else if |parts| == 1 then parts[0]
    else parts[0] + [sep] + Join(parts[1..], sep)
  }

  /** `s.split(sep)` for a one-character separator: the pieces between consecutive
      occurrences of `sep`, so that a string with k separators gives k + 1 pieces (the
      empty string gives one empty piece). Joining the pieces back gives `s`. */
  function Split(s: string, sep: char): (r: seq<string>)
    ensures |r| >= 1
    ensures forall i | 0 <= i < |r| :: sep !in r[i]
    ensures Join(r, sep) == s
  {
    if s == [] then [[]]
    else
      var rest := Split(s[1..], sep);
      if s[0] == sep then
        assert ([[]] + rest)[1..] == rest;
        [[]] + rest
      else
        var r := [[s[0]] + rest[0]] + rest[1..];
        assert r[1..] == rest[1..];
        assert |rest| > 1 ==> rest == [rest[0]] + rest[1..] && Join(rest, sep) == rest[0] + [sep] + Join(rest[1..], sep);
        r
  }

  /** A string holding the separator splits into at least two pieces. */
  lemma SplitHasTwo(s: string, sep: char)
    requires sep in s
    ensures |Split(s, sep)| >= 2
  {
  }

  /** A leading non-separator joins the first piece. */
  lemma SplitCons(c: char, s: string, sep: char)
    requires c != sep
    ensures Split([c] + s, sep) == [[c] + Split(s, sep)[0]] + Split(s, sep)[1..]
  {
    assert ([c] + s)[1..] == s;
  }

  /** A leading separator starts with an empty piece. */
  lemma SplitSepCons(s: string, sep: char)
    ensures Split([sep] + s, sep) == [[]] + Split(s, sep)
  {
    assert ([sep] + s)[1..] == s;
  }

  /** Splitting at a first separator preceded by `a` gives `a` and then the pieces after it. */
  lemma SplitAtFirst(a: string, t: string, sep: char)
    requires sep !in a
    ensures Split(a + [sep] + t, sep) == [a] + Split(t, sep)
  {
    SplitPrefix(a, [sep] + t, sep);
    SplitSepCons(t, sep);
    var pieces := [[]] + Split(t, sep);
    assert pieces[0] == [] && pieces[1..] == Split(t, sep);
    assert a + [sep] + t == a + ([sep] + t) && a + [] == a;
  }

  /** Splitting `a + t` where `a` holds no separator glues `a` onto the first piece of `t`. */
  lemma {:induction false} SplitPrefix(a: string, t: string, sep: char)
    requires sep !in a
    ensures Split(a + t, sep) == [a + Split(t, sep)[0]] + Split(t, sep)[1..]
  {
    var pieces := Split(t, sep);
    if a == [] {
      assert a + t == t && a + pieces[0] == pieces[0];
      assert [pieces[0]] + pieces[1..] == pieces;
    } else {
      SplitPrefix(a[1..], t, sep);
      SplitPrefixStep(a, t, sep);
    }
  }

  /** The inductive step of `SplitPrefix`: put back the first character of `a`. */
  lemma SplitPrefixStep(a: string, t: string, sep: char)
    requires a != [] && a[0] != sep
    requires Split(a[1..] + t, sep) == [a[1..] + Split(t, sep)[0]] + Split(t, sep)[1..]
    ensures Split(a + t, sep) == [a + Split(t, sep)[0]] + Split(t, sep)[1..]
  {
    var pieces := Split(t, sep);
    var rest := Split(a[1..] + t, sep);
    assert rest[0] == a[1..] + pieces[0] && rest[1..] == pieces[1..];
    ConsAppend(a, t);
    ConsAppend(a, pieces[0]);
    SplitCons(a[0], a[1..] + t, sep);
  }

  /** A non-empty sequence is its head followed by its tail. */
  lemma ConsAppend<T>(a: seq<T>, t: seq<T>)
    requires a != []
    ensures a + t == [a[0]] + (a[1..] + t)
  {
  }

  /** Splitting undoes joining, for pieces that hold no separator. */
  lemma {:induction false} SplitJoin(parts: seq<string>, sep: char)
    requires |parts| >= 1
    requires forall i | 0 <= i < |parts| :: sep !in parts[i]
    ensures Split(Join(parts, sep), sep) == parts
    decreases |parts|
  {
    if |parts| == 1 {
      SplitPrefix(parts[0], [], sep);
      assert parts[0] + [] == parts[0];
      assert parts == [parts[0]];
    } else {
      SplitJoin(parts[1..], sep);
      SplitJoinStep(parts, sep);
    }
  }

  /** The inductive step of `SplitJoin`: the first piece, then the separator, then the
      split of the rest. */
  lemma SplitJoinStep(parts: seq<string>, sep: char)
    requires |parts| >= 2 && sep !in parts[0]
    requires Split(Join(parts[1..], sep), sep) == parts[1..]
    ensures Split(Join(parts, sep), sep) == parts
  {
    var tail := Join(parts[1..], sep);
    var rest := [sep] + tail;
    assert Join(parts, sep) == parts[0] + rest;
    SplitSepCons(tail, sep);
    SplitPrefix(parts[0], rest, sep);
    assert Split(rest, sep)[0] == [] && Split(rest, sep)[1..] == parts[1..];
    assert parts[0] + [] == parts[0];
    assert parts == [parts[0]] + parts[1..];
  }

  /** `s` begins with `prefix`. */
  predicate StartsWith(s: string, prefix: string)
  {
    |prefix| <= |s| && s[..|prefix|] == prefix
  }

  /** `hay.includes(needle)`: `needle` occurs in `hay` at some position. */
  function Contains(hay: string, needle: string): (r: bool)
    ensures r <==> exists i | 0 <= i <= |hay| :: StartsWith(hay[i..], needle)
  {
    if StartsWith(hay, needle) then
      assert StartsWith(hay[0..], needle);
      true
    else if hay == [] then false
    else
      var r := Contains(hay[1..], needle);
      assert forall i | 1 <= i <= |hay| :: hay[i..] == hay[1..][i - 1..];
      assert r ==> exists i | 0 <= i <= |hay| :: StartsWith(hay[i..], needle) by {
        if r {
          var j :| 0 <= j <= |hay[1..]| && StartsWith(hay[1..][j..], needle);
          assert hay[j + 1..] == hay[1..][j..];
        }
      }
      r
  }

  /** The lower-case form of one character, as `toLowerCase` gives it for Basic Latin,
      Latin-1 and the basic Cyrillic block: A–Z, À–Þ (except ×), А–Я and Ѐ–Џ. */
  function LowerChar(c: char): char
  {
    if 'A' <= c <= 'Z' || ('\U{00C0}' <= c <= '\U{00DE}' && c != '\U{00D7}') || ('\U{0410}' <= c <= '\U{042F}') then
      (c as int + 32) as char
    else if '\U{0400}' <= c <= '\U{040F}' then
      (c as int + 80) as char
    else c
  }

  /** `s.toLowerCase()`, character by character. */
  function ToLower(s: string): (r: string)
    ensures |r| == |s|
    ensures forall i | 0 <= i < |s| :: r[i] == LowerChar(s[i])
  {
    seq(|s|, i requires 0 <= i < |s| => LowerChar(s[i]))
  }

  /** Lower-casing is idempotent. */
  lemma ToLowerIdempotent(s: string)
    ensures ToLower(ToLower(s)) == ToLower(s)
  {
  }
}
