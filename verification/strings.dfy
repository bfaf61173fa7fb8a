/** Python `str` and JavaScript `String` operations the parser tool relies on,
    on strings as sequences of characters. */
module Strings {
  import opened Wrappers

  type String = seq<char>

  /** Python's `str.isspace()`: the characters `str.split()` and `str.strip()` treat as whitespace. */
  predicate IsSpace(c: char) {
    || c == ' ' || '\t' <= c <= '\r' || '\U{1C}' <= c <= '\U{1F}' || c == '\U{85}' || c == '\U{A0}'
    || c == '\U{1680}' || '\U{2000}' <= c <= '\U{200A}' || c == '\U{2028}' || c == '\U{2029}'
    || c == '\U{202F}' || c == '\U{205F}' || c == '\U{3000}'
  }

  predicate AllSpace(s: String) {
    forall i | 0 <= i < |s| :: IsSpace(s[i])
  }

  /** A token `str.split()` can produce: non-empty and free of whitespace. */
  predicate IsWord(w: String) {
    |w| > 0 && forall i | 0 <= i < |w| :: !IsSpace(w[i])
  }

  /** `sub` occurs in `s` starting at index `i`. */
  predicate OccursAt(s: String, sub: String, i: int) {
    0 <= i && i + |sub| <= |s| && s[i..i + |sub|] == sub
  }

  /** JavaScript `s.includes(sub)` and Python `sub in s`. */
  predicate Contains(s: String, sub: String) {
    exists i | 0 <= i <= |s| - |sub| :: OccursAt(s, sub, i)
  }

  /** JavaScript `s.startsWith(p)` and Python `s.startswith(p)`. */
  predicate StartsWith(s: String, p: String) {
    |p| <= |s| && s[..|p|] == p
  }

  /** Python `sep.join(parts)`. */
  function Join(parts: seq<String>, sep: String): String
    decreases |parts|
  {
    if |parts| == 0 then ""
    else if |parts| == 1 then parts[0]
    else parts[0] + sep + Join(parts[1..], sep)
  }

  // ---------------------------------------------------------------- strip

  /** Number of whitespace characters at the start of `s`. */
  function LeadingSpace(s: String): (n: nat)
    ensures n <= |s| && AllSpace(s[..n])
    ensures n < |s| ==> !IsSpace(s[n])
  {
    if |s| > 0 && IsSpace(s[0]) then
      var m := LeadingSpace(s[1..]);
      assert s[..1 + m] == [s[0]] + s[1..][..m];
      1 + m
    else 0
  }

  /** Number of whitespace characters at the end of `s`. */
  function TrailingSpace(s: String): (n: nat)
    ensures n <= |s| && AllSpace(s[|s| - n..])
    ensures n < |s| ==> !IsSpace(s[|s| - n - 1])
  {
    if |s| > 0 && IsSpace(s[|s| - 1]) then
      var t := s[..|s| - 1];
      var m := TrailingSpace(t);
      var u := s[|s| - (1 + m)..];
      assert AllSpace(u) by {
        forall i | 0 <= i < |u| ensures IsSpace(u[i]) {
          if i < m {
            assert u[i] == t[|t| - m..][i];
          }
        }
      }
      1 + m
    else 0
  }

  /** Python `s.strip()`: the slice of `s` left after dropping whitespace at both ends. */
  function Strip(s: String): (r: String)
    ensures exists i, j | 0 <= i <= j <= |s| :: r == s[i..j] && AllSpace(s[..i]) && AllSpace(s[j..])
    ensures r != [] ==> !IsSpace(r[0]) && !IsSpace(r[|r| - 1])
  {
    var i := LeadingSpace(s);
    var t := s[i..];
    var j := |t| - TrailingSpace(t);
    assert t[..j] == s[i..i + j];
    assert s[i + j..] == t[j..];
    t[..j]
  }

  // ---------------------------------------------------------------- split()

  /** Length of the maximal whitespace-free prefix of `s`. */
  function WordLength(s: String): (n: nat)
    ensures n <= |s|
    ensures forall i | 0 <= i < n :: !IsSpace(s[i])
    ensures n < |s| ==> IsSpace(s[n])
  {
    if |s| > 0 && !IsSpace(s[0]) then 1 + WordLength(s[1..]) else 0
  }

  /** `gaps[0] + ws[0] + gaps[1] + … + ws[n - 1] + gaps[n]`. */
  function Interleave(gaps: seq<String>, ws: seq<String>): String
    requires |gaps| == |ws| + 1
    decreases |ws|
  {
    if ws == [] then gaps[0] else gaps[0] + ws[0] + Interleave(gaps[1..], ws[1..])
  }

  /** `s` is the words `ws` with the blank `gaps` around and between them, and two
      consecutive words are kept apart by at least one whitespace character. */
  predicate Gapped(s: String, ws: seq<String>, gaps: seq<String>) {
    && |gaps| == |ws| + 1
    && s == Interleave(gaps, ws)
    && (forall k | 0 <= k < |gaps| :: AllSpace(gaps[k]))
    && (forall k | 0 < k < |ws| :: gaps[k] != [])
  }

  /** Python `s.split()` with no separator: the maximal whitespace-free runs of `s`, in order.
      The words and some blank gaps, non-empty between words, make up `s`. */
  function Words(s: String): (r: seq<String>)
    ensures forall k | 0 <= k < |r| :: IsWord(r[k])
    ensures exists gaps :: Gapped(s, r, gaps)
    decreases |s|
  {
    if |s| == 0 then
      assert Gapped(s, [], [""]);
      []
    else if IsSpace(s[0]) then
      var r := Words(s[1..]);
      GappedSpace(s, r);
      r
    else
      var n := WordLength(s);
      var r := Words(s[n..]);
      GappedWord(s, n, r);
      [s[..n]] + r
  }

  /** A leading whitespace character joins the first gap. */
  lemma GappedSpace(s: String, ws: seq<String>)
    requires |s| > 0 && IsSpace(s[0])
    requires exists gaps :: Gapped(s[1..], ws, gaps)
    ensures exists gaps :: Gapped(s, ws, gaps)
  {
    var g :| Gapped(s[1..], ws, g);
    var g2 := [[s[0]] + g[0]] + g[1..];
    assert g2[1..] == g[1..];
    assert Interleave(g2, ws) == [s[0]] + Interleave(g, ws);
    assert s == [s[0]] + s[1..];
    assert AllSpace(g2[0]) by {
      forall i | 0 <= i < |g2[0]| ensures IsSpace(g2[0][i]) {
        if i > 0 { assert g2[0][i] == g[0][i - 1]; }
      }
    }
    assert Gapped(s, ws, g2);
  }

  /** A leading word of length `n` comes before an empty first gap. */
  lemma GappedWord(s: String, n: nat, ws: seq<String>)
    requires 0 < n == WordLength(s)
    requires forall k | 0 <= k < |ws| :: IsWord(ws[k])
    requires exists gaps :: Gapped(s[n..], ws, gaps)
    ensures exists gaps :: Gapped(s, [s[..n]] + ws, gaps)
  {
    var g :| Gapped(s[n..], ws, g);
    var w := s[..n];
    var g2 := [""] + g;
    assert g2[1..] == g && ([w] + ws)[1..] == ws;
    assert Interleave(g2, [w] + ws) == w + Interleave(g, ws);
    assert s == w + s[n..];
    assert Gapped(s, [w] + ws, g2);
  }

  /** The contract of `Words` fixes its result: any list of words that blank gaps, non-empty
      between words, make up into `s` is `Words(s)`. */
  lemma {:induction false} WordsUnique(s: String, ws: seq<String>, gaps: seq<String>)
    requires forall k | 0 <= k < |ws| :: IsWord(ws[k])
    requires Gapped(s, ws, gaps)
    ensures Words(s) == ws
    decreases |s|
  {
    if gaps[0] != [] {
      var g2 := [gaps[0][1..]] + gaps[1..];
      assert g2[1..] == gaps[1..];
      if ws == [] {
        assert s == gaps[0];
      } else {
        assert s == gaps[0] + ws[0] + Interleave(gaps[1..], ws[1..]);
      }
      assert s[1..] == Interleave(g2, ws);
      assert IsSpace(s[0]) by { assert s[0] == gaps[0][0]; }
      assert AllSpace(g2[0]) by {
        forall i | 0 <= i < |g2[0]| ensures IsSpace(g2[0][i]) { assert g2[0][i] == gaps[0][i + 1]; }
      }
      assert Gapped(s[1..], ws, g2);
      WordsUnique(s[1..], ws, g2);
    } else if ws != [] {
      var w := ws[0];
      var rest := Interleave(gaps[1..], ws[1..]);
      assert s == w + rest;
      if |ws| > 1 {
        assert rest == gaps[1] + ws[1] + Interleave(gaps[2..], ws[2..]) by {
          assert gaps[1..][1..] == gaps[2..];
        }
        assert rest[0] == gaps[1][0];
      } else if rest != [] {
        assert rest == gaps[1];
      }
      WordLengthOfWord(w, rest);
      assert s[..|w|] == w && s[|w|..] == rest;
      assert Gapped(rest, ws[1..], gaps[1..]);
      WordsUnique(rest, ws[1..], gaps[1..]);
      assert ws == [w] + ws[1..];
    }
  }

  /** Splitting a space-joined list of words gives the words back. */
  lemma {:induction false} WordsOfJoin(ws: seq<String>)
    requires forall k | 0 <= k < |ws| :: IsWord(ws[k])
    ensures Words(Join(ws, " ")) == ws
    decreases |ws|
  {
    if |ws| == 1 {
      WordsOfCons(ws[0], "");
      assert ws[0] + "" == ws[0];
    } else if |ws| > 1 {
      var rest := " " + Join(ws[1..], " ");
      assert Join(ws, " ") == ws[0] + rest;
      WordsOfCons(ws[0], rest);
      assert rest[1..] == Join(ws[1..], " ");
      WordsOfJoin(ws[1..]);
      assert ws == [ws[0]] + ws[1..];
    }
  }

  /** A word followed by nothing or by whitespace is the first token. */
  lemma WordsOfCons(w: String, rest: String)
    requires IsWord(w)
    requires rest == [] || IsSpace(rest[0])
    ensures Words(w + rest) == [w] + Words(rest)
    ensures rest != [] ==> Words(rest) == Words(rest[1..])
  {
    WordLengthOfWord(w, rest);
    var s := w + rest;
    assert s[..|w|] == w;
    assert s[|w|..] == rest;
  }

  lemma WordLengthOfWord(w: String, rest: String)
    requires IsWord(w)
    requires rest == [] || IsSpace(rest[0])
    ensures WordLength(w + rest) == |w|
    decreases |w|
  {
    if |w| > 1 {
      assert (w + rest)[1..] == w[1..] + rest;
      WordLengthOfWord(w[1..], rest);
    } else {
      assert (w + rest)[1..] == rest;
    }
  }

  /** `s.split()` is empty exactly when `s` is blank. */
  lemma {:induction false} WordsEmpty(s: String)
    ensures Words(s) == [] <==> AllSpace(s)
    decreases |s|
  {
    if |s| > 0 && IsSpace(s[0]) {
      WordsEmpty(s[1..]);
      if AllSpace(s[1..]) {
        forall i | 0 <= i < |s| ensures IsSpace(s[i]) {
          if i > 0 {
            assert s[i] == s[1..][i - 1];
            assert IsSpace(s[1..][i - 1]);
          }
        }
      }
    }
  }

  // ---------------------------------------------------------------- split(sep)

  /** Leftmost occurrence of `sub` in `s` at or after `from`. */
  function FindFrom(s: String, sub: String, from: nat): (r: Option<nat>)
    ensures r.Some? ==> from <= r.value && OccursAt(s, sub, r.value)
    ensures r.Some? ==> forall j | from <= j < r.value :: !OccursAt(s, sub, j)
    ensures r.None? ==> forall j | from <= j :: !OccursAt(s, sub, j)
    decreases |s| - from
  {
    if from + |sub| > |s| then None
    else if s[from..from + |sub|] == sub then Some(from)
    else FindFrom(s, sub, from + 1)
  }

  /** The indices of `Join(parts, sep)` at which the parts start, in order. */
  function PartStarts(parts: seq<String>, sep: String): (r: seq<nat>)
    ensures |r| == |parts|
  {
    if parts == [] then []
    else
      var tail := PartStarts(parts[1..], sep);
      [0] + seq(|tail|, k requires 0 <= k < |tail| => |parts[0]| + |sep| + tail[k])
  }

  /** Part `k` of a join sits in it at `PartStarts(parts, sep)[k]`. */
  lemma {:induction false} PartAtStart(parts: seq<String>, sep: String, k: nat)
    requires k < |parts|
    ensures var st := PartStarts(parts, sep)[k];
      st + |parts[k]| <= |Join(parts, sep)| && Join(parts, sep)[st..st + |parts[k]|] == parts[k]
    decreases k
  {
    var j := Join(parts, sep);
    if k == 0 {
      if |parts| > 1 {
        assert j == parts[0] + sep + Join(parts[1..], sep);
      }
    } else {
      PartAtStart(parts[1..], sep, k - 1);
      var tail := Join(parts[1..], sep);
      assert j == parts[0] + sep + tail;
      var st := PartStarts(parts[1..], sep)[k - 1];
      var off := |parts[0]| + |sep|;
      assert PartStarts(parts, sep)[k] == off + st;
      assert parts[1..][k - 1] == parts[k];
      assert j[off + st..off + st + |parts[k]|] == tail[st..st + |parts[k]|];
    }
  }

  /** No occurrence of `sub` in `s` starts at an index in `[lo, hi)`. */
  predicate NoOccurrenceIn(s: String, sub: String, lo: int, hi: int) {
    forall j | lo <= j < hi :: !OccursAt(s, sub, j)
  }

  /** Python `str.split(sep)` for a non-empty separator: cut at each leftmost
      non-overlapping occurrence of `sep`. Joining the parts gives `s` back, and no
      occurrence of `sep` in `s` starts inside a part, so every cut is the leftmost one. */
  function SplitOn(s: String, sep: String): (r: seq<String>)
    requires |sep| > 0
    ensures |r| >= 1
    ensures Join(r, sep) == s
    ensures forall k | 0 <= k < |r| :: !Contains(r[k], sep)
    ensures forall k {:trigger PartStarts(r, sep)[k]} | 0 <= k < |r| ::
      NoOccurrenceIn(s, sep, PartStarts(r, sep)[k], PartStarts(r, sep)[k] + |r[k]|)
    decreases |s|
  {
    match FindFrom(s, sep, 0)
    case None =>
      assert forall j | 0 <= j <= |s| - |sep| :: !OccursAt(s, sep, j);
      [s]
    case Some(i) =>
      var rest := SplitOn(s[i + |sep|..], sep);
      SplitCons(s, sep, i, rest);
      [s[..i]] + rest
  }

  /** The contract of `SplitOn` for a cut at the first occurrence `i`, given the contract for
      the text after it. */
  lemma SplitCons(s: String, sep: String, i: nat, rest: seq<String>)
    requires |sep| > 0 && OccursAt(s, sep, i)
    requires forall j | 0 <= j < i :: !OccursAt(s, sep, j)
    requires Join(rest, sep) == s[i + |sep|..] && |rest| >= 1
    requires forall k | 0 <= k < |rest| :: !Contains(rest[k], sep)
    requires var starts := PartStarts(rest, sep);
      forall k | 0 <= k < |rest| :: NoOccurrenceIn(s[i + |sep|..], sep, starts[k], starts[k] + |rest[k]|)
    ensures var r := [s[..i]] + rest; Join(r, sep) == s && forall k | 0 <= k < |r| :: !Contains(r[k], sep)
    ensures var r := [s[..i]] + rest; var starts := PartStarts(r, sep);
      forall k | 0 <= k < |r| :: NoOccurrenceIn(s, sep, starts[k], starts[k] + |r[k]|)
  {
    NoEarlierOccurrence(s, sep, i);
    assert s == s[..i] + sep + s[i + |sep|..];
    assert ([s[..i]] + rest)[1..] == rest;
    LeftmostCons(s, sep, i, rest);
  }

  /** Cutting `s` at its first occurrence `i` of `sep` and splitting the remainder keeps every
      part free of occurrences that start inside it. */
  lemma LeftmostCons(s: String, sep: String, i: nat, rest: seq<String>)
    requires |sep| > 0 && i + |sep| <= |s|
    requires forall j | 0 <= j < i :: !OccursAt(s, sep, j)
    requires var starts := PartStarts(rest, sep);
      forall k | 0 <= k < |rest| :: NoOccurrenceIn(s[i + |sep|..], sep, starts[k], starts[k] + |rest[k]|)
    ensures var r := [s[..i]] + rest; var starts := PartStarts(r, sep);
      forall k | 0 <= k < |r| :: NoOccurrenceIn(s, sep, starts[k], starts[k] + |r[k]|)
  {
    var r := [s[..i]] + rest;
    var starts := PartStarts(r, sep);
    var tail := PartStarts(rest, sep);
    assert r[1..] == rest;
    forall k | 0 <= k < |r| ensures NoOccurrenceIn(s, sep, starts[k], starts[k] + |r[k]|) {
      if k == 0 {
        assert NoOccurrenceIn(s, sep, 0, i);
      } else {
        assert starts[k] == i + |sep| + tail[k - 1] && r[k] == rest[k - 1];
        ShiftNoOccurrence(s, sep, i + |sep|, tail[k - 1], tail[k - 1] + |rest[k - 1]|);
      }
    }
  }

  /** An occurrence-free range of a suffix is an occurrence-free range of the whole, shifted. */
  lemma ShiftNoOccurrence(s: String, sub: String, off: nat, lo: nat, hi: int)
    requires off <= |s|
    requires NoOccurrenceIn(s[off..], sub, lo, hi)
    ensures NoOccurrenceIn(s, sub, off + lo, off + hi)
  {
    var t := s[off..];
    forall j | off + lo <= j < off + hi ensures !OccursAt(s, sub, j) {
      assert !OccursAt(t, sub, j - off);
      if j + |sub| <= |s| {
        assert s[j..j + |sub|] == t[j - off..j - off + |sub|];
      }
    }
  }

  lemma NoEarlierOccurrence(s: String, sep: String, i: nat)
    requires |sep| > 0 && i <= |s|
    requires forall j | 0 <= j < i :: !OccursAt(s, sep, j)
    ensures !Contains(s[..i], sep)
  {
    forall j | 0 <= j <= i - |sep| ensures !OccursAt(s[..i], sep, j) {
      assert !OccursAt(s, sep, j);
      assert s[..i][j..j + |sep|] == s[j..j + |sep|];
    }
  }

  /** For a one-character separator absent from every part, splitting undoes joining. */
  lemma {:induction false} SplitOfJoin(xs: seq<String>, c: char)
    requires |xs| >= 1
    requires forall k | 0 <= k < |xs| :: c !in xs[k]
    ensures SplitOn(Join(xs, [c]), [c]) == xs
    decreases |xs|
  {
    var s := Join(xs, [c]);
    if |xs| == 1 {
      forall v | 0 <= v && v + 1 <= |s| ensures !OccursAt(s, [c], v) {
        assert s[v..v + 1][0] == s[v];
      }
      assert FindFrom(s, [c], 0).None?;
    } else {
      var x := xs[0];
      assert s == x + [c] + Join(xs[1..], [c]);
      assert OccursAt(s, [c], |x|) by { assert s[|x|..|x| + 1] == [c]; }
      forall v | 0 <= v < |x| ensures !OccursAt(s, [c], v) {
        assert s[v..v + 1][0] == s[v] == x[v];
      }
      var r := FindFrom(s, [c], 0);
      assert r == Some(|x|);
      assert s[..|x|] == x;
      assert s[|x| + 1..] == Join(xs[1..], [c]);
      SplitOfJoin(xs[1..], c);
      assert xs == [x] + xs[1..];
    }
  }

  // ---------------------------------------------------------------- numbers

  predicate IsNumeral(s: String) {
    forall i | 0 <= i < |s| :: s[i] in "-0123456789"
  }

  function DigitChar(d: nat): char
    requires d < 10
  {
    "0123456789"[d]
  }

  /** Decimal text of a natural number. */
  function NatToString(n: nat): (r: String)
    ensures |r| > 0 && IsNumeral(r)
  {
    if n < 10 then [DigitChar(n)] else NatToString(n / 10) + [DigitChar(n % 10)]
  }

  /** Python `str(n)` / JavaScript `String(n)` on an integer. */
  function IntToString(n: int): (r: String)
    ensures |r| > 0 && IsNumeral(r)
  {
    if n < 0 then "-" + NatToString(-n) else NatToString(n)
  }
}
