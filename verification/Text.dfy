/** The string operations the components rely on: `toLowerCase` and
    `toUpperCase` restricted to ASCII letters, `includes`, the regular
    expression replace that puts a space before every capital, and `trim`. */
module Text {
  import opened Seqs

  predicate IsUpper(c: char) { 'A' <= c <= 'Z' }

  predicate IsLower(c: char) { 'a' <= c <= 'z' }

  function LowerChar(c: char): (d: char)
    ensures !IsUpper(d)
    ensures IsUpper(c) ==> IsLower(d) && d as int == c as int + 32
    ensures !IsUpper(c) ==> d == c
  {
    if IsUpper(c) then (c as int + 32) as char else c
  }

  function UpperChar(c: char): (d: char)
    ensures !IsLower(d)
    ensures IsLower(c) ==> IsUpper(d) && d as int == c as int - 32
    ensures !IsLower(c) ==> d == c
  {
    if IsLower(c) then (c as int - 32) as char else c
  }

  /** `s.toLowerCase()` on ASCII letters; every other character is kept. */
  function Lower(s: string): (r: string)
    ensures |r| == |s|
    ensures forall i :: 0 <= i < |s| ==> r[i] == LowerChar(s[i])
  {
    seq(|s|, i requires 0 <= i < |s| => LowerChar(s[i]))
  }

  /** `s.toUpperCase()` on ASCII letters; every other character is kept. */
  function Upper(s: string): (r: string)
    ensures |r| == |s|
    ensures forall i :: 0 <= i < |s| ==> r[i] == UpperChar(s[i])
  {
    seq(|s|, i requires 0 <= i < |s| => UpperChar(s[i]))
  }

  /** A lower-cased string holds no upper-case letter. */
  lemma LowerHasNoUpper(s: string, i: int)
    requires 0 <= i < |Lower(s)|
    ensures !IsUpper(Lower(s)[i])
  {
  }

  /** Lower-casing forgets any earlier upper-casing. */
  lemma LowerOfUpper(s: string)
    ensures Lower(Upper(s)) == Lower(s)
  {
    forall i | 0 <= i < |s| ensures Lower(Upper(s))[i] == Lower(s)[i] {
      var c := s[i];
      if IsLower(c) {
        assert UpperChar(c) as int == c as int - 32;
      }
    }
  }

  /** `t` sits in `s` starting at position `i`. */
  predicate OccursAt(s: string, t: string, i: nat) {
    i + |t| <= |s| && s[i..i + |t|] == t
  }

  /** `s.includes(t)`: scans `s` from the left for an occurrence of `t`. */
  function Includes(s: string, t: string): (found: bool)
    decreases |s|
  {
    if |t| > |s| then false
    else if s[..|t|] == t then true
    else Includes(s[1..], t)
  }

  /** `Includes` holds exactly when `t` occurs at some position of `s`. */
  lemma {:induction false} IncludesIff(s: string, t: string)
    ensures Includes(s, t) <==> exists i: nat :: OccursAt(s, t, i)
    decreases |s|
  {
    if |t| > |s| {
      forall i: nat ensures !OccursAt(s, t, i) { }
    } else if s[..|t|] == t {
      assert OccursAt(s, t, 0);
    } else {
      IncludesIff(s[1..], t);
      if Includes(s[1..], t) {
        var i: nat :| OccursAt(s[1..], t, i);
        assert s[1..][i..i + |t|] == s[i + 1..i + 1 + |t|];
        assert OccursAt(s, t, i + 1);
      } else {
        forall i: nat | OccursAt(s, t, i) ensures false {
          assert i != 0;
          assert s[1..][i - 1..i - 1 + |t|] == s[i..i + |t|];
          assert OccursAt(s[1..], t, i - 1);
        }
      }
    }
  }

  /** The characters JavaScript's `trim` removes: white space and line terminators. */
  predicate IsWhiteSpace(c: char) {
    || ('\t' <= c <= '\r')                    // tab, line feed, vertical tab, form feed, carriage return
    || c == ' ' || c == '\U{00A0}' || c == '\U{1680}'
    || ('\U{2000}' <= c <= '\U{200A}')
    || c == '\U{2028}' || c == '\U{2029}' || c == '\U{202F}' || c == '\U{205F}'
    || c == '\U{3000}' || c == '\U{FEFF}'
  }

  /** The number of white-space characters at the start of `s`. */
  function LeadingSpace(s: string): (n: nat)
    ensures n <= |s|
    ensures forall k :: 0 <= k < n ==> IsWhiteSpace(s[k])
    ensures n < |s| ==> !IsWhiteSpace(s[n])
    decreases |s|
  {
    if s == [] || !IsWhiteSpace(s[0]) then 0 else 1 + LeadingSpace(s[1..])
  }

  /** The number of white-space characters at the end of `s`. */
  function TrailingSpace(s: string): (n: nat)
    ensures n <= |s|
    ensures forall k :: |s| - n <= k < |s| ==> IsWhiteSpace(s[k])
    ensures n < |s| ==> !IsWhiteSpace(s[|s| - 1 - n])
    decreases |s|
  {
    if s == [] || !IsWhiteSpace(s[|s| - 1]) then 0 else 1 + TrailingSpace(s[..|s| - 1])
  }

  /** `s.trim()`: the longest slice of `s` that neither starts nor ends with white space
      and outside of which there is only white space. */
  function Trim(s: string): (r: string)
    ensures r == [] || (!IsWhiteSpace(r[0]) && !IsWhiteSpace(r[|r| - 1]))
    ensures r == [] ==> forall k :: 0 <= k < |s| ==> IsWhiteSpace(s[k])
    ensures exists i, j :: 0 <= i <= j <= |s| && r == s[i..j]
                           && forall k :: 0 <= k < i || j <= k < |s| ==> IsWhiteSpace(s[k])
  {
    var a := LeadingSpace(s);
    if a == |s| then
      assert s[0..0] == [];
      []
    else
      var b := TrailingSpace(s);
      assert !IsWhiteSpace(s[a]);
      s[a..|s| - b]
  }

  /** `s.replace(/([A-Z])/g, " $1")`: a space goes in front of every capital letter. */
  function SpaceBeforeCapitals(s: string): (r: string)
    ensures |r| >= |s|
    decreases |s|
  {
    if s == [] then []
    else (if IsUpper(s[0]) then [' ', s[0]] else [s[0]]) + SpaceBeforeCapitals(s[1..])
  }

  /** Removes a space that stands directly in front of a capital letter. */
  function RemoveSpaceBeforeCapitals(s: string): (r: string)
    decreases |s|
  {
    if s == [] then []
    else if |s| >= 2 && s[0] == ' ' && IsUpper(s[1]) then [s[1]] + RemoveSpaceBeforeCapitals(s[2..])
    else [s[0]] + RemoveSpaceBeforeCapitals(s[1..])
  }

  /** Inserting the spaces loses nothing: removing them again gives back the input. */
  lemma {:induction false} SpaceBeforeCapitalsRoundTrip(s: string)
    ensures RemoveSpaceBeforeCapitals(SpaceBeforeCapitals(s)) == s
    decreases |s|
  {
    if s != [] {
      SpaceBeforeCapitalsRoundTrip(s[1..]);
      var rest := SpaceBeforeCapitals(s[1..]);
      if IsUpper(s[0]) {
        var r := [' ', s[0]] + rest;
        assert r[2..] == rest;
        assert RemoveSpaceBeforeCapitals(r) == [s[0]] + RemoveSpaceBeforeCapitals(rest);
      } else {
        var r := [s[0]] + rest;
        assert r[1..] == rest;
        if |r| >= 2 && r[0] == ' ' {
          assert r[1] == rest[0];
          assert s[1..] != [];
          assert !IsUpper(rest[0]) by {
            if IsUpper(s[1]) {
              assert rest[0] == ' ';
            } else {
              assert rest[0] == s[1];
            }
          }
        }
        assert RemoveSpaceBeforeCapitals(r) == [s[0]] + RemoveSpaceBeforeCapitals(rest);
      }
    }
  }

  /** Every capital letter in the result stands right after a space. */
  lemma {:induction false} CapitalsFollowSpace(s: string, i: int)
    requires 0 <= i < |SpaceBeforeCapitals(s)|
    requires IsUpper(SpaceBeforeCapitals(s)[i])
    ensures i > 0 && SpaceBeforeCapitals(s)[i - 1] == ' '
    decreases |s|
  {
    var rest := SpaceBeforeCapitals(s[1..]);
    var head := if IsUpper(s[0]) then [' ', s[0]] else [s[0]];
    assert SpaceBeforeCapitals(s) == head + rest;
    if i >= |head| {
      CapitalsFollowSpace(s[1..], i - |head|);
    }
  }

  /** The inserted spaces never come last, and a non-capital first character stays first. */
  lemma {:induction false} SpaceBeforeCapitalsEnds(s: string)
    requires s != []
    ensures var r := SpaceBeforeCapitals(s);
      && r != []
      && r[|r| - 1] == s[|s| - 1]
      && (!IsUpper(s[0]) ==> r[0] == s[0])
    decreases |s|
  {
    if |s| > 1 {
      SpaceBeforeCapitalsEnds(s[1..]);
    }
  }

  /** The replacement works character by character, so it distributes over concatenation. */
  lemma {:induction false} SpaceBeforeCapitalsAppend(a: string, b: string)
    ensures SpaceBeforeCapitals(a + b) == SpaceBeforeCapitals(a) + SpaceBeforeCapitals(b)
    decreases |a|
  {
    if a != [] {
      assert (a + b)[1..] == a[1..] + b;
      SpaceBeforeCapitalsAppend(a[1..], b);
    } else {
      assert a + b == b;
    }
  }

  /** A string without capitals is left as it is. */
  lemma {:induction false} SpaceBeforeCapitalsNoCapitals(s: string)
    requires forall k :: 0 <= k < |s| ==> !IsUpper(s[k])
    ensures SpaceBeforeCapitals(s) == s
    decreases |s|
  {
    if s != [] {
      SpaceBeforeCapitalsNoCapitals(s[1..]);
      assert [s[0]] + s[1..] == s;
    }
  }

  /** A string that neither starts nor ends with white space is its own trim. */
  lemma TrimUnchanged(s: string)
    requires s == [] || (!IsWhiteSpace(s[0]) && !IsWhiteSpace(s[|s| - 1]))
    ensures Trim(s) == s
  {
  }

  /** A lower-case word followed by a capitalised one gets exactly one space between them. */
  lemma SpacedTwoWords(tail: string, word: string)
    requires forall k :: 0 <= k < |tail| ==> !IsUpper(tail[k])
    requires word != [] && IsUpper(word[0]) && forall k :: 1 <= k < |word| ==> !IsUpper(word[k])
    ensures SpaceBeforeCapitals(tail + word) == tail + [' '] + word
  {
    var rest := word[1..];
    SpaceBeforeCapitalsAppend(tail, word);
    SpaceBeforeCapitalsNoCapitals(tail);
    SpaceBeforeCapitalsNoCapitals(rest);
    assert word == [word[0]] + rest;
    calc {
      SpaceBeforeCapitals(word);
      [' ', word[0]] + SpaceBeforeCapitals(rest);
      [' ', word[0]] + rest;
      [' '] + word;
    }
    Assoc(tail, [' '], word);
  }
}
