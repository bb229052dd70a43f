/** Models of the .NET string, path and number routines the core relies on:
  * char.IsWhiteSpace, string.Trim, ordinal case-insensitive comparison,
  * string.Split on one separator, StreamReader.ReadLine, Path.GetExtension,
  * Path.GetFileNameWithoutExtension, int.TryParse and decimal formatting
  * of an int. */
module Text {
  import opened Wrappers

  // ---------------------------------------------------------------------
  // Characters
  // ---------------------------------------------------------------------

  /** char.IsWhiteSpace: the Unicode space separators, line and paragraph
    * separators, and the control characters U+0009..U+000D and U+0085. */
  predicate IsWhiteSpace(c: char)
  {
    var n := c as int;
    (0x09 <= n <= 0x0D) || n == 0x20 || n == 0x85 || n == 0xA0 || n == 0x1680
    || (0x2000 <= n <= 0x200A) || n == 0x2028 || n == 0x2029 || n == 0x202F
    || n == 0x205F || n == 0x3000
  }

  predicate AllWhiteSpace(s: string)
  {
    forall i :: 0 <= i < |s| ==> IsWhiteSpace(s[i])
  }

  /** string.IsNullOrWhiteSpace, with None standing for null. */
  predicate IsNullOrWhiteSpace(s: Option<string>)
  {
    s.None? || AllWhiteSpace(s.value)
  }

  predicate IsDigit(c: char)
  {
    '0' <= c <= '9'
  }

  /** Upper-casing used by the ordinal case-insensitive comparisons (ASCII letters). */
  function ToUpper(c: char): (u: char)
    ensures !('a' <= u <= 'z')
    ensures 'a' <= c <= 'z' ==> 'A' <= u <= 'Z' && u as int - 'A' as int == c as int - 'a' as int
    ensures !('a' <= c <= 'z') ==> u == c
  {
    if 'a' <= c <= 'z' then (c as int - 32) as char else c
  }

  /** string.Equals(a, b, StringComparison.OrdinalIgnoreCase). */
  predicate EqualsIgnoreCase(a: string, b: string)
  {
    |a| == |b| && forall i :: 0 <= i < |a| ==> ToUpper(a[i]) == ToUpper(b[i])
  }

  predicate MatchesAt(s: string, sub: string, i: int)
  {
    0 <= i && i + |sub| <= |s| && EqualsIgnoreCase(s[i..i + |sub|], sub)
  }

  /** s.Contains(sub, StringComparison.OrdinalIgnoreCase). */
  predicate ContainsIgnoreCase(s: string, sub: string)
  {
    exists i :: 0 <= i <= |s| - |sub| && MatchesAt(s, sub, i)
  }

  /** items.Contains(t, StringComparer.OrdinalIgnoreCase). */
  predicate HasIgnoreCase(items: seq<string>, t: string)
  {
    exists i :: 0 <= i < |items| && EqualsIgnoreCase(items[i], t)
  }

  // ---------------------------------------------------------------------
  // Trim
  // ---------------------------------------------------------------------

  function TrimStart(s: string): (r: string)
    ensures |r| <= |s| && r == s[|s| - |r|..]
    ensures AllWhiteSpace(s[..|s| - |r|])
    ensures r != [] ==> !IsWhiteSpace(r[0])
  {
    if s != [] && IsWhiteSpace(s[0]) then
      var r := TrimStart(s[1..]);
      TrimStartStep(s, r);
      r
    else
      assert s[..0] == [];
      s
  }

  /** Cutting one more white space character off the front. */
  lemma TrimStartStep(s: string, r: string)
    requires s != [] && IsWhiteSpace(s[0])
    requires |r| <= |s| - 1 && r == s[1..][|s| - 1 - |r|..] && AllWhiteSpace(s[1..][..|s| - 1 - |r|])
    ensures r == s[|s| - |r|..] && AllWhiteSpace(s[..|s| - |r|])
  {
    var t := s[1..];
    var w := t[..|t| - |r|];
    assert t[|t| - |r|..] == s[|s| - |r|..];
    assert s[..|s| - |r|] == [s[0]] + w;
    WhiteAppend([s[0]], w);
  }

  function TrimEnd(s: string): (r: string)
    ensures |r| <= |s| && r == s[..|r|]
    ensures AllWhiteSpace(s[|r|..])
    ensures r != [] ==> !IsWhiteSpace(r[|r| - 1])
  {
    if s != [] && IsWhiteSpace(s[|s| - 1]) then
      var r := TrimEnd(s[..|s| - 1]);
      TrimEndStep(s, r);
      r
    else
      assert s[|s|..] == [];
      s
  }

  /** Cutting one more white space character off the back. */
  lemma TrimEndStep(s: string, r: string)
    requires s != [] && IsWhiteSpace(s[|s| - 1])
    requires |r| <= |s| - 1 && r == s[..|s| - 1][..|r|] && AllWhiteSpace(s[..|s| - 1][|r|..])
    ensures r == s[..|r|] && AllWhiteSpace(s[|r|..])
  {
    var init := s[..|s| - 1];
    assert init[..|r|] == s[..|r|];
    assert s[|r|..] == init[|r|..] + [s[|s| - 1]];
    WhiteAppend(init[|r|..], [s[|s| - 1]]);
  }

  lemma WhiteAppend(a: string, b: string)
    requires AllWhiteSpace(a) && AllWhiteSpace(b)
    ensures AllWhiteSpace(a + b)
  {
    forall i | 0 <= i < |a + b| ensures IsWhiteSpace((a + b)[i]) {
      if i < |a| {
        assert (a + b)[i] == a[i];
      } else {
        assert (a + b)[i] == b[i - |a|];
      }
    }
  }

  /** r is s with the white space s[..i] and s[i + |r|..] cut off. */
  predicate TrimmedAt(s: string, r: string, i: int)
  {
    0 <= i && i + |r| <= |s| && r == s[i..i + |r|]
    && AllWhiteSpace(s[..i]) && AllWhiteSpace(s[i + |r|..])
  }

  /** string.Trim: the longest infix with no white space at either end. */
  function Trim(s: string): (r: string)
    ensures TrimmedAt(s, r, |s| - |TrimStart(s)|)
    ensures r != [] ==> !IsWhiteSpace(r[0]) && !IsWhiteSpace(r[|r| - 1])
  {
    var t := TrimStart(s);
    var r := TrimEnd(t);
    TrimSlices(s, t, r);
    r
  }

  lemma TrimSlices(s: string, t: string, r: string)
    requires |t| <= |s| && t == s[|s| - |t|..] && AllWhiteSpace(s[..|s| - |t|])
    requires |r| <= |t| && r == t[..|r|] && AllWhiteSpace(t[|r|..])
    ensures TrimmedAt(s, r, |s| - |t|)
  {
    var i := |s| - |t|;
    assert s[i..i + |r|] == t[..|r|];
    assert s[i + |r|..] == t[|r|..];
  }

  // ---------------------------------------------------------------------
  // Searching
  // ---------------------------------------------------------------------

  /** s.IndexOf(c): the first position of c, or -1. */
  function IndexOf(s: string, c: char): (r: int)
    ensures -1 <= r < |s|
    ensures r == -1 <==> c !in s
    ensures r >= 0 ==> s[r] == c && c !in s[..r]
  {
    if s == [] then -1
    else if s[0] == c then 0
    else
      var k := IndexOf(s[1..], c);
      assert s[1..][..(if k >= 0 then k else 0)] == s[1..(if k >= 0 then k + 1 else 1)];
      if k == -1 then -1 else k + 1
  }

  /** s.LastIndexOf(c): the last position of c, or -1. */
  function LastIndexOf(s: string, c: char): (r: int)
    ensures -1 <= r < |s|
    ensures r == -1 <==> c !in s
    ensures r >= 0 ==> s[r] == c && c !in s[r + 1..]
  {
    if s == [] then -1
    else
      var init := s[..|s| - 1];
      var last := s[|s| - 1];
      assert s == init + [last];
      if last == c then
        assert s[|s|..] == [];
        |s| - 1
      else
        var k := LastIndexOf(init, c);
        assert c in s <==> c in init;
        assert k >= 0 ==> s[k + 1..] == init[k + 1..] + [last];
        k
  }

  /** The part of a path after its last '/', as used before Substring in
    * ProcessChainedRequest and DownloadResponse. */
  function FileNameOf(path: string): (r: string)
    ensures '/' !in r
    ensures exists d :: path == d + r && (d == [] || d[|d| - 1] == '/')
  {
    var k := LastIndexOf(path, '/');
    var start := if k == -1 then 0 else k + 1;
    assert path == path[..start] + path[start..];
    path[start..]
  }

  // ---------------------------------------------------------------------
  // Split and Join
  // ---------------------------------------------------------------------

  /** s.Split(sep): every field, empty ones included. */
  function Split(s: string, sep: char): (r: seq<string>)
    ensures |r| >= 1
    ensures forall i :: 0 <= i < |r| ==> sep !in r[i]
    decreases |s|
  {
    var k := IndexOf(s, sep);
    if k == -1 then [s] else [s[..k]] + Split(s[k + 1..], sep)
  }

  /** string.Join(sep, parts). */
  function Join(parts: seq<string>, sep: char): string
  {
    if |parts| == 0 then []
    else if |parts| == 1 then parts[0]
    else parts[0] + [sep] + Join(parts[1..], sep)
  }

  lemma {:induction false} JoinSplit(s: string, sep: char)
    ensures Join(Split(s, sep), sep) == s
    decreases |s|
  {
    var k := IndexOf(s, sep);
    if k == -1 {
      assert Split(s, sep) == [s];
    } else {
      var tail := Split(s[k + 1..], sep);
      assert Split(s, sep) == [s[..k]] + tail;
      JoinSplit(s[k + 1..], sep);
      assert |tail| >= 1;
      assert ([s[..k]] + tail)[1..] == tail;
      assert Join([s[..k]] + tail, sep) == s[..k] + [sep] + Join(tail, sep);
      CutAt(s, k);
    }
  }

  /** A string is its part before index k, the character at k and the rest. */
  lemma CutAt(s: string, k: nat)
    requires k < |s|
    ensures s == s[..k] + [s[k]] + s[k + 1..]
  {
    assert s[k..] == [s[k]] + s[k + 1..];
    assert s == s[..k] + s[k..];
  }

  lemma {:induction false} SplitJoin(parts: seq<string>, sep: char)
    requires |parts| >= 1
    requires forall i :: 0 <= i < |parts| ==> sep !in parts[i]
    ensures Split(Join(parts, sep), sep) == parts
    decreases |parts|
  {
    var head := parts[0];
    assert sep !in head;
    if |parts| > 1 {
      var s := Join(parts, sep);
      var rest := Join(parts[1..], sep);
      assert s == head + [sep] + rest;
      assert s[..|head|] == head;
      assert s[|head|] == sep;
      IndexAfterFree(s, sep, |head|);
      assert s[|head| + 1..] == rest;
      assert Split(s, sep) == [head] + Split(rest, sep);
      SplitJoin(parts[1..], sep);
      assert parts == [head] + parts[1..];
    } else {
      assert Join(parts, sep) == head;
      assert IndexOf(head, sep) == -1;
    }
  }

  lemma IndexAfterFree(s: string, sep: char, k: int)
    requires 0 <= k < |s| && s[k] == sep && sep !in s[..k]
    ensures IndexOf(s, sep) == k
  {
    var j := IndexOf(s, sep);
    assert j >= 0;
    assert j <= k;
  }

  // ---------------------------------------------------------------------
  // StreamReader.ReadLine
  // ---------------------------------------------------------------------

  predicate IsLineBreak(c: char)
  {
    c == '\n' || c == '\r'
  }

  /** Position of the first line break, or the length when there is none. */
  function LineEnd(s: string): (j: nat)
    ensures j <= |s|
    ensures forall k :: 0 <= k < j ==> !IsLineBreak(s[k])
    ensures j < |s| ==> IsLineBreak(s[j])
  {
    if s == [] || IsLineBreak(s[0]) then 0 else 1 + LineEnd(s[1..])
  }

  /** One ReadLine call: None (null) at the end of the stream, otherwise the
    * text up to the next "\n", "\r" or "\r\n" and the remaining stream. */
  function ReadLine(s: string): (r: Option<(string, string)>)
    ensures r.None? <==> s == []
    ensures r.Some? ==> |r.value.1| < |s|
    ensures r.Some? ==> forall c :: c in r.value.0 ==> !IsLineBreak(c)
  {
    if s == [] then None
    else
      var j := LineEnd(s);
      var rest := if j == |s| then []
                  else if s[j] == '\r' && j + 1 < |s| && s[j + 1] == '\n' then s[j + 2..]
                  else s[j + 1..];
      Some((s[..j], rest))
  }

  /** The lines a StreamReader returns before ReadLine yields null. */
  function Lines(s: string): seq<string>
    decreases |s|
  {
    match ReadLine(s)
    case None => []
    case Some((line, rest)) => [line] + Lines(rest)
  }

  /** The first line (the CSV header), or None for an empty stream. */
  function FirstLine(s: string): (r: Option<string>)
    ensures r.None? <==> Lines(s) == []
    ensures r.Some? ==> r.value == Lines(s)[0]
  {
    match ReadLine(s)
    case None => None
    case Some((line, _)) => Some(line)
  }

  /** Lines joined with "\n" terminators. */
  function Terminated(lines: seq<string>): string
  {
    if lines == [] then [] else lines[0] + "\n" + Terminated(lines[1..])
  }

  /** ReadLine gives back every line of a "\n"-terminated text. */
  lemma {:induction false} LinesOfTerminated(lines: seq<string>)
    requires forall i :: 0 <= i < |lines| ==> forall c :: c in lines[i] ==> !IsLineBreak(c)
    ensures Lines(Terminated(lines)) == lines
    decreases |lines|
  {
    if lines != [] {
      var l := lines[0];
      var s := Terminated(lines);
      var tail := Terminated(lines[1..]);
      assert s == l + "\n" + tail;
      assert forall k :: 0 <= k < |l| ==> s[k] == l[k];
      LineEndAt(s, |l|);
      assert s[|l| + 1..] == tail;
      assert s[..|l|] == l;
      LinesOfTerminated(lines[1..]);
      assert lines == [l] + lines[1..];
    }
  }

  lemma LineEndAt(s: string, j: nat)
    requires j < |s| && IsLineBreak(s[j])
    requires forall k :: 0 <= k < j ==> !IsLineBreak(s[k])
    ensures LineEnd(s) == j
  {
  }

  /** Counts the lines of a stream the way the validators do:
    * `while (reader.ReadLine() != null) counter++`. */
  method CountLines(s: string) returns (n: nat)
    ensures n == |Lines(s)|
  {
    n := 0;
    var rest := s;
    while rest != []
      invariant n + |Lines(rest)| == |Lines(s)|
      decreases |rest|
    {
      var j := 0;
      while j < |rest| && !IsLineBreak(rest[j])
        invariant 0 <= j <= |rest|
        invariant forall k :: 0 <= k < j ==> !IsLineBreak(rest[k])
      {
        j := j + 1;
      }
      if j < |rest| {
        LineEndAt(rest, j);
      } else {
        NoBreakLineEnd(rest);
      }
      var next := if j == |rest| then []
                  else if rest[j] == '\r' && j + 1 < |rest| && rest[j + 1] == '\n' then rest[j + 2..]
                  else rest[j + 1..];
      assert ReadLine(rest) == Some((rest[..j], next));
      n := n + 1;
      rest := next;
    }
  }

  lemma NoBreakLineEnd(s: string)
    requires forall k :: 0 <= k < |s| ==> !IsLineBreak(s[k])
    ensures LineEnd(s) == |s|
  {
  }

  // ---------------------------------------------------------------------
  // Paths (Linux: '/' is the only directory separator)
  // ---------------------------------------------------------------------

  /** Path.GetExtension: from the last '.' of the final path segment, or
    * "" when there is none or the '.' ends the path. */
  function GetExtension(path: string): (r: string)
    ensures r != [] ==> r[0] == '.' && '.' !in r[1..] && '/' !in r
    decreases |path|
  {
    if path == [] then []
    else
      var c := path[|path| - 1];
      if c == '/' then []
      else if c == '.' then []
      else
        assert path[..|path| - 1] + [c] == path;
        ExtensionTailShape(path[..|path| - 1], [c]);
        ExtensionTail(path[..|path| - 1], [c])
  }

  /** The extension ending in `suffix`, a run of characters that are
    * neither '.' nor '/', found by walking `prefix` back to its last '.'. */
  function ExtensionTail(prefix: string, suffix: string): (r: string)
    requires '.' !in suffix && '/' !in suffix
    decreases |prefix|
  {
    if prefix == [] then []
    else
      var c := prefix[|prefix| - 1];
      if c == '/' then []
      else if c == '.' then [c] + suffix
      else ExtensionTail(prefix[..|prefix| - 1], [c] + suffix)
  }

  /** A non-empty extension is a '.' followed by neither '.' nor '/', and
    * it is the end of `prefix + suffix`. */
  lemma {:induction false} ExtensionTailShape(prefix: string, suffix: string)
    requires '.' !in suffix && '/' !in suffix
    ensures var r := ExtensionTail(prefix, suffix);
            r != [] ==> r[0] == '.' && '.' !in r[1..] && '/' !in r
                        && |suffix| < |r| <= |prefix| + |suffix| && r == (prefix + suffix)[|prefix| + |suffix| - |r|..]
    decreases |prefix|
  {
    if prefix != [] {
      var c := prefix[|prefix| - 1];
      var front := prefix[..|prefix| - 1];
      assert front + ([c] + suffix) == prefix + suffix;
      if c == '.' {
        assert ([c] + suffix)[1..] == suffix;
        assert (prefix + suffix)[|prefix| - 1..] == [c] + suffix;
      } else if c != '/' {
        ExtensionTailShape(front, [c] + suffix);
      }
    }
  }

  /** A non-empty extension is the end of the path it was taken from. */
  lemma ExtensionIsSuffix(path: string)
    ensures var r := GetExtension(path);
            r != [] ==> |r| <= |path| && r == path[|path| - |r|..]
  {
    if path != [] && path[|path| - 1] != '/' && path[|path| - 1] != '.' {
      var c := path[|path| - 1];
      assert path[..|path| - 1] + [c] == path;
      ExtensionTailShape(path[..|path| - 1], [c]);
    }
  }

  /** Walking back over characters that are neither '.' nor '/' only
    * moves them into the collected suffix. */
  lemma {:induction false} ExtensionTailSkips(prefix: string, mid: string, suffix: string)
    requires '.' !in mid && '/' !in mid && '.' !in suffix && '/' !in suffix
    ensures ExtensionTail(prefix + mid, suffix) == ExtensionTail(prefix, mid + suffix)
    decreases |mid|
  {
    if mid != [] {
      var c := mid[|mid| - 1];
      var front := mid[..|mid| - 1];
      assert c in mid;
      assert (prefix + mid)[..|prefix + mid| - 1] == prefix + front;
      assert '.' !in front && '/' !in front by {
        forall k | 0 <= k < |front| ensures front[k] != '.' && front[k] != '/' {
          assert front[k] == mid[k];
        }
      }
      assert (prefix + mid)[|prefix + mid| - 1] == c;
      assert ExtensionTail(prefix + mid, suffix) == ExtensionTail(prefix + front, [c] + suffix);
      ExtensionTailSkips(prefix, front, [c] + suffix);
      assert front + ([c] + suffix) == mid + suffix;
    } else {
      assert prefix + mid == prefix && mid + suffix == suffix;
    }
  }

  /** The extension of "stem.ext" is ".ext" when ext is not empty and holds
    * neither '.' nor '/'. */
  lemma {:induction false} ExtensionOf(stem: string, ext: string)
    requires ext != [] && '.' !in ext && '/' !in ext
    ensures GetExtension(stem + "." + ext) == "." + ext
  {
    var path := stem + "." + ext;
    var c := ext[|ext| - 1];
    var front := ext[..|ext| - 1];
    assert c in ext;
    assert path[|path| - 1] == c;
    assert path[..|path| - 1] == (stem + ".") + front;
    assert '.' !in front && '/' !in front by {
      forall k | 0 <= k < |front| ensures front[k] != '.' && front[k] != '/' {
        assert front[k] == ext[k];
      }
    }
    ExtensionTailSkips(stem + ".", front, [c]);
    assert front + [c] == ext;
    var dotted := stem + ".";
    assert dotted[..|dotted| - 1] == stem;
  }

  /** Path.GetFileNameWithoutExtension: the final path segment cut at its
    * last '.'. */
  function GetFileNameWithoutExtension(path: string): (r: string)
    ensures '/' !in r
    ensures |r| <= |FileNameOf(path)| && r == FileNameOf(path)[..|r|]
    ensures |r| < |FileNameOf(path)| ==> FileNameOf(path)[|r|] == '.' && '.' !in FileNameOf(path)[|r| + 1..]
    ensures |r| == |FileNameOf(path)| ==> '.' !in FileNameOf(path)
  {
    var name := FileNameOf(path);
    var k := LastIndexOf(name, '.');
    if k == -1 then name
    else
      assert '/' !in name[..k] by {
        forall c | c in name[..k] ensures c != '/' { assert c in name; }
      }
      name[..k]
  }

  // ---------------------------------------------------------------------
  // Numbers
  // ---------------------------------------------------------------------

  const Int32Min := -0x8000_0000
  const Int32Max := 0x7FFF_FFFF

  predicate IsInt32(n: int)
  {
    Int32Min <= n <= Int32Max
  }

  function DigitValue(c: char): nat
    requires IsDigit(c)
  {
    c as int - '0' as int
  }

  /** The value of a string of decimal digits. */
  function DigitsValue(s: string): nat
    requires forall i :: 0 <= i < |s| ==> IsDigit(s[i])
  {
    if s == [] then 0 else DigitsValue(s[..|s| - 1]) * 10 + DigitValue(s[|s| - 1])
  }

  /** Length of the longest prefix satisfying the white-space test accepted
    * by int.TryParse (U+0009..U+000D and U+0020). */
  predicate IsParseWhite(c: char)
  {
    c == ' ' || ('\t' <= c <= '\r')
  }

  function SpanOf(s: string, digits: bool): (k: nat)
    ensures k <= |s|
    ensures forall i :: 0 <= i < k ==> (if digits then IsDigit(s[i]) else IsParseWhite(s[i]))
    ensures k < |s| ==> !(if digits then IsDigit(s[k]) else IsParseWhite(s[k]))
  {
    if s == [] then 0
    else if (if digits then IsDigit(s[0]) else IsParseWhite(s[0])) then 1 + SpanOf(s[1..], digits)
    else 0
  }

  predicate AllNul(s: string)
  {
    forall i :: 0 <= i < |s| ==> s[i] == '\0'
  }

  predicate AllParseWhite(s: string)
  {
    forall i :: 0 <= i < |s| ==> IsParseWhite(s[i])
  }

  predicate AllDigits(s: string)
  {
    forall i :: 0 <= i < |s| ==> IsDigit(s[i])
  }

  /** The text int.TryParse reads as a number, taken apart: leading white
    * space, a sign of at most one character, one or more digits, then
    * trailing white space and NUL characters. */
  predicate Numeral(t: string, lead: string, sign: string, digits: string, trail: string, nuls: string)
  {
    t == lead + (sign + (digits + (trail + nuls)))
    && AllParseWhite(lead)
    && (sign == "" || sign == "+" || sign == "-")
    && digits != [] && AllDigits(digits)
    && AllParseWhite(trail)
    && AllNul(nuls)
  }

  /** The number a sign and digits stand for. */
  function NumeralValue(sign: string, digits: string): int
    requires AllDigits(digits)
  {
    if sign == "-" then -(DigitsValue(digits) as int) else DigitsValue(digits) as int
  }

  /** int.TryParse with the default integer style and the invariant culture:
    * optional white space, an optional '+' or '-', one or more ASCII digits,
    * optional white space and trailing NUL characters, and a value within
    * the 32-bit range. None stands for a false return (including a null
    * input). */
  function TryParseInt32(s: Option<string>): (r: Option<int>)
    ensures r.Some? ==> IsInt32(r.value)
  {
    if s.None? then None
    else
      var t := s.value;
      ParseSigned(t[SpanOf(t, false)..])
  }

  /** What follows the leading white space: an optional sign, then the
    * magnitude. */
  function ParseSigned(u: string): Option<int>
  {
    if u != [] && u[0] == '-' then Signed(Magnitude(u[1..]), true)
    else if u != [] && u[0] == '+' then Signed(Magnitude(u[1..]), false)
    else Signed(Magnitude(u), false)
  }

  /** The number the digits at the start of `body` stand for, when at least
    * one digit is there and only white space and NULs follow them. */
  function Magnitude(body: string): Option<nat>
  {
    var d := SpanOf(body, true);
    var tail := body[d..];
    if d == 0 || !AllNul(tail[SpanOf(tail, false)..]) then None
    else Some(DigitsValue(body[..d]))
  }

  /** The magnitude with its sign, refused outside the 32-bit range. */
  function Signed(m: Option<nat>, negative: bool): Option<int>
  {
    if m.None? then None
    else
      var v := if negative then -(m.value as int) else m.value as int;
      if IsInt32(v) then Some(v) else None
  }

  function DigitChar(d: nat): (c: char)
    requires d < 10
    ensures IsDigit(c) && DigitValue(c) == d
  {
    ('0' as int + d) as char
  }

  /** n.ToString() for a natural number. */
  function NatToString(n: nat): (r: string)
    ensures |r| >= 1
    ensures forall i :: 0 <= i < |r| ==> IsDigit(r[i])
    ensures DigitsValue(r) == n
    ensures |r| > 1 ==> r[0] != '0'
  {
    if n < 10 then [DigitChar(n)]
    else
      var p := NatToString(n / 10);
      var r := p + [DigitChar(n % 10)];
      assert r[..|r| - 1] == p;
      r
  }

  /** n.ToString() for an int: a '-' exactly for a negative value, then
    * the digits of its magnitude without a leading zero. */
  function IntToString(n: int): (r: string)
    ensures |r| >= 1
    ensures r[0] == '-' <==> n < 0
    ensures var digits := if n < 0 then r[1..] else r;
            digits != [] && AllDigits(digits) && DigitsValue(digits) == if n < 0 then -n else n
    ensures var digits := if n < 0 then r[1..] else r;
            |digits| > 1 ==> digits[0] != '0'
  {
    if n >= 0 then NatToString(n) else "-" + NatToString(-n)
  }

  /** Parsing the text of an int gives the int back. */
  lemma ParseFormatted(n: int)
    requires IsInt32(n)
    ensures TryParseInt32(Some(IntToString(n))) == Some(n)
  {
    var t := IntToString(n);
    var sign := if n < 0 then "-" else "";
    var digits := if n < 0 then t[1..] else t;
    assert t == "" + (sign + (digits + ("" + "")));
    NumeralParses(t, "", sign, digits, "", "");
  }

  /** Digits followed by white space and NULs have the digits' value as
    * magnitude. */
  lemma MagnitudeOf(digits: string, trail: string, nuls: string)
    requires digits != [] && AllDigits(digits) && AllParseWhite(trail) && AllNul(nuls)
    ensures Magnitude(digits + (trail + nuls)) == Some(DigitsValue(digits))
  {
    var after := trail + nuls;
    var body := digits + after;
    if after != [] {
      assert after[0] == if trail == [] then nuls[0] else trail[0];
    }
    SpanStops(digits, after, true);
    assert body[|digits|..] == after && body[..|digits|] == digits;
    SpanStops(trail, nuls, false);
    assert after[|trail|..] == nuls;
  }

  /** A magnitude is read from digits followed by white space and NULs. */
  lemma MagnitudeParts(body: string) returns (digits: string, trail: string, nuls: string)
    requires Magnitude(body).Some?
    ensures body == digits + (trail + nuls)
    ensures digits != [] && AllDigits(digits) && AllParseWhite(trail) && AllNul(nuls)
    ensures Magnitude(body) == Some(DigitsValue(digits))
  {
    var d := SpanOf(body, true);
    var tail := body[d..];
    var w := SpanOf(tail, false);
    digits, trail, nuls := body[..d], tail[..w], tail[w..];
    assert body == body[..d] + tail;
    assert tail == tail[..w] + tail[w..];
  }

  /** A numeral within the 32-bit range parses to its value, and one
    * outside it is refused. */
  lemma NumeralParses(t: string, lead: string, sign: string, digits: string, trail: string, nuls: string)
    requires Numeral(t, lead, sign, digits, trail, nuls)
    ensures var v := NumeralValue(sign, digits);
            TryParseInt32(Some(t)) == if IsInt32(v) then Some(v) else None
  {
    var body := digits + (trail + nuls);
    assert (sign + body)[0] == if sign == "" then digits[0] else sign[0];
    LeadSkipped(t, lead, sign + body);
    SignRead(sign, body);
    MagnitudeOf(digits, trail, nuls);
    SignedValue(sign, digits);
  }

  /** Signing the digits' value gives the numeral's value, within range. */
  lemma SignedValue(sign: string, digits: string)
    requires AllDigits(digits)
    ensures var v := NumeralValue(sign, digits);
            Signed(Some(DigitsValue(digits)), sign == "-") == if IsInt32(v) then Some(v) else None
  {
  }

  /** The leading white space is skipped up to the first other character. */
  lemma LeadSkipped(t: string, lead: string, rest: string)
    requires t == lead + rest && AllParseWhite(lead)
    requires rest != [] ==> !IsParseWhite(rest[0])
    ensures TryParseInt32(Some(t)) == ParseSigned(rest)
  {
    SpanStops(lead, rest, false);
    assert t[|lead|..] == rest;
  }

  /** A sign of at most one character before a digit. */
  lemma SignRead(sign: string, body: string)
    requires sign == "" || sign == "+" || sign == "-"
    requires body != [] && IsDigit(body[0])
    ensures ParseSigned(sign + body) == Signed(Magnitude(body), sign == "-")
  {
    if sign == "" {
      assert sign + body == body;
    } else {
      assert (sign + body)[1..] == body;
    }
  }

  /** Every text TryParseInt32 accepts is a numeral, and its result is the
    * numeral's value. */
  lemma ParsedIsNumeral(t: string)
    requires TryParseInt32(Some(t)).Some?
    ensures exists lead, sign, digits, trail, nuls :: Numeral(t, lead, sign, digits, trail, nuls)
              && TryParseInt32(Some(t)).value == NumeralValue(sign, digits)
  {
    var lead := t[..SpanOf(t, false)];
    var afterWhite := t[SpanOf(t, false)..];
    assert t == lead + afterWhite;
    var sign, body;
    if afterWhite != [] && (afterWhite[0] == '-' || afterWhite[0] == '+') {
      sign, body := afterWhite[..1], afterWhite[1..];
    } else {
      sign, body := "", afterWhite;
    }
    assert afterWhite == sign + body;
    assert ParseSigned(afterWhite) == Signed(Magnitude(body), sign == "-");
    var digits, trail, nuls := MagnitudeParts(body);
    SignedValue(sign, digits);
    assert Numeral(t, lead, sign, digits, trail, nuls);
  }

  /** What int.TryParse accepts, in both directions: exactly the numerals
    * whose value lies within the 32-bit range, read as that value. */
  lemma TryParseMeaning(t: string, v: int)
    ensures TryParseInt32(Some(t)) == Some(v) <==>
              IsInt32(v) && exists lead, sign, digits, trail, nuls ::
                Numeral(t, lead, sign, digits, trail, nuls) && v == NumeralValue(sign, digits)
  {
    if TryParseInt32(Some(t)) == Some(v) {
      ParsedIsNumeral(t);
    }
    if exists lead, sign, digits, trail, nuls :: Numeral(t, lead, sign, digits, trail, nuls) && v == NumeralValue(sign, digits) {
      var lead, sign, digits, trail, nuls :| Numeral(t, lead, sign, digits, trail, nuls) && v == NumeralValue(sign, digits);
      NumeralParses(t, lead, sign, digits, trail, nuls);
    }
  }

  /** Texts TryParse refuses: null, empty, blank, a lone sign, a decimal
    * point, trailing letters and two signs. */
  lemma TryParseRefusals()
    ensures TryParseInt32(None) == None
    ensures TryParseInt32(Some("")) == None
    ensures TryParseInt32(Some(" ")) == None
    ensures TryParseInt32(Some("+")) == None
    ensures TryParseInt32(Some("1.5")) == None
    ensures TryParseInt32(Some("12a")) == None
    ensures TryParseInt32(Some("--1")) == None
  {
    var blank, plus, decimal, letters, twoSigns := " ", "+", "1.5", "12a", "--1";
    assert SpanOf(blank, false) == 1;
    assert SpanOf(plus, false) == 0 && plus[1..] == [];
    assert SpanOf(decimal, false) == 0;
    assert SpanOf(decimal, true) == 1 && decimal[1..] == ".5" && SpanOf(".5", false) == 0;
    assert SpanOf(letters, false) == 0;
    assert SpanOf(letters, true) == 2 && letters[2..] == "a" && SpanOf("a", false) == 0;
    assert SpanOf(twoSigns, false) == 0 && twoSigns[1..] == "-1" && SpanOf("-1", true) == 0;
  }

  /** SpanOf stops at the end of a run: after `p`, whose characters all
    * pass the test, when `q` does not start with one that does. */
  lemma SpanStops(p: string, q: string, digits: bool)
    requires forall i :: 0 <= i < |p| ==> (if digits then IsDigit(p[i]) else IsParseWhite(p[i]))
    requires q != [] ==> !(if digits then IsDigit(q[0]) else IsParseWhite(q[0]))
    ensures SpanOf(p + q, digits) == |p|
  {
    var t := p + q;
    assert forall i :: 0 <= i < |p| ==> t[i] == p[i];
    assert q != [] ==> t[|p|] == q[0];
  }

  lemma AllDigitsSpan(s: string)
    requires forall i :: 0 <= i < |s| ==> IsDigit(s[i])
    ensures SpanOf(s, true) == |s|
  {
  }
}
