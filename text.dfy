/** Text and sequence helpers that the engine's string handling relies on:
    Rust's `str::split` on a one-character pattern, its inverse, ASCII case
    swapping and sequence reversal. */
module Text {

  datatype Option<+T> = None | Some(value: T)

  /** `s.split(sep).collect()` in Rust: the pieces between separators, in
      order. There is always at least one piece (`"".split('/')` is `[""]`). */
  function Split(s: string, sep: char): (parts: seq<string>)
    ensures |parts| >= 1
    ensures forall k :: 0 <= k < |parts| ==> sep !in parts[k]
    decreases |s|
  {
    if s == [] then [""]
    else
      var rest := Split(s[1..], sep);
      if s[0] == sep then [""] + rest
      else [[s[0]] + rest[0]] + rest[1..]
  }

  /** The pieces glued back together with one separator between neighbours. */
  function Join(parts: seq<string>, sep: char): string
    requires |parts| >= 1
    decreases |parts|
  {
    if |parts| == 1 then parts[0] else parts[0] + [sep] + Join(parts[1..], sep)
  }

  /** Splitting loses nothing: joining the pieces gives back the string. */
  lemma {:induction false} JoinSplit(s: string, sep: char)
    ensures Join(Split(s, sep), sep) == s
    decreases |s|
  {
    if s != [] {
      JoinSplit(s[1..], sep);
      var rest := Split(s[1..], sep);
      if s[0] != sep {
        var parts := Split(s, sep);
        assert parts[0] == [s[0]] + rest[0];
        if |rest| > 1 {
          assert parts[1..] == rest[1..];
          assert Join(rest, sep) == rest[0] + [sep] + Join(rest[1..], sep);
        }
      } else {
        assert Split(s, sep)[1..] == rest;
      }
    }
  }

  /** A string without the separator is its own single piece. */
  lemma SplitWithoutSeparator(s: string, sep: char)
    requires sep !in s
    ensures Split(s, sep) == [s]
  {
    JoinSplit(s, sep);
  }

  /** Splitting recovers any separator-free pieces that were joined. */
  lemma {:induction false} SplitJoin(parts: seq<string>, sep: char)
    requires |parts| >= 1
    requires forall k :: 0 <= k < |parts| ==> sep !in parts[k]
    ensures Split(Join(parts, sep), sep) == parts
    decreases |parts|, |parts[0]|
  {
    if parts[0] == [] {
      if |parts| > 1 {
        SplitJoin(parts[1..], sep);
        var s := Join(parts, sep);
        assert s == [sep] + Join(parts[1..], sep);
        assert s[1..] == Join(parts[1..], sep);
        assert [""] + parts[1..] == parts;
      }
    } else {
      var c := parts[0][0];
      var tail := [parts[0][1..]] + parts[1..];
      assert tail[1..] == parts[1..];
      assert forall k :: 0 <= k < |tail| ==> sep !in tail[k] by {
        forall k | 0 <= k < |tail| ensures sep !in tail[k] {
          if k == 0 {
            assert parts[0] == [c] + parts[0][1..];
          } else {
            assert tail[k] == parts[k];
          }
        }
      }
      SplitJoin(tail, sep);
      var s := Join(parts, sep);
      assert parts[0] == [c] + tail[0];
      if |parts| == 1 {
        assert s == [c] + Join(tail, sep);
      } else {
        assert s == [c] + (tail[0] + [sep] + Join(parts[1..], sep));
        assert Join(tail, sep) == tail[0] + [sep] + Join(tail[1..], sep);
        assert s == [c] + Join(tail, sep);
      }
      assert s[1..] == Join(tail, sep);
      assert c != sep;
      var rest := Split(s[1..], sep);
      assert rest == tail;
      assert Split(s, sep) == [[c] + tail[0]] + tail[1..];
    }
  }

  predicate IsUpper(c: char) { 'A' <= c <= 'Z' }
  predicate IsLower(c: char) { 'a' <= c <= 'z' }

  /** ASCII case swap: upper-case letters become lower-case and vice versa;
      every other character is left alone. */
  function SwapCaseChar(c: char): (d: char)
    ensures IsUpper(c) <==> IsLower(d)
    ensures IsLower(c) <==> IsUpper(d)
    ensures !IsUpper(c) && !IsLower(c) ==> d == c
  {
    if IsUpper(c) then (c as int - 'A' as int + 'a' as int) as char
    else if IsLower(c) then (c as int - 'a' as int + 'A' as int) as char
    else c
  }

  lemma SwapCaseCharInvolution(c: char)
    ensures SwapCaseChar(SwapCaseChar(c)) == c
  {
  }

  /** SwapCaseChar applied to every character of a string. */
  function SwapCase(s: string): (t: string)
    ensures |t| == |s|
    ensures forall i :: 0 <= i < |s| ==> t[i] == SwapCaseChar(s[i])
  {
    seq(|s|, i requires 0 <= i < |s| => SwapCaseChar(s[i]))
  }

  /** SwapCase applied to every string of a list. */
  function SwapCaseAll(parts: seq<string>): (qs: seq<string>)
    ensures |qs| == |parts|
    ensures forall k :: 0 <= k < |parts| ==> qs[k] == SwapCase(parts[k])
  {
    seq(|parts|, k requires 0 <= k < |parts| => SwapCase(parts[k]))
  }

  /** Swapping case commutes with splitting on a separator that is not a letter. */
  lemma {:induction false} SplitSwapCase(s: string, sep: char)
    requires !IsUpper(sep) && !IsLower(sep)
    ensures Split(SwapCase(s), sep) == SwapCaseAll(Split(s, sep))
    decreases |s|
  {
    var t := SwapCase(s);
    if s != [] {
      assert t[1..] == SwapCase(s[1..]);
      SplitSwapCase(s[1..], sep);
      var rest := Split(s[1..], sep);
      assert Split(t[1..], sep) == SwapCaseAll(rest);
      assert t[0] == sep <==> s[0] == sep;
      if s[0] != sep {
        assert SwapCase([s[0]] + rest[0]) == [t[0]] + SwapCase(rest[0]);
        assert SwapCaseAll(rest)[1..] == SwapCaseAll(rest[1..]);
        assert Split(s, sep) == [[s[0]] + rest[0]] + rest[1..];
      } else {
        assert Split(s, sep) == [""] + rest;
      }
    } else {
      assert t == [];
    }
  }

  /** The sequence in the opposite order. */
  function Reversed<T>(s: seq<T>): (r: seq<T>)
    ensures |r| == |s|
    decreases |s|
  {
    if s == [] then [] else [s[|s| - 1]] + Reversed(s[..|s| - 1])
  }

  /** Element k of the reversal is element |s|-1-k of the original. */
  lemma {:induction false} ReversedAt<T>(s: seq<T>, k: nat)
    requires k < |s|
    ensures Reversed(s)[k] == s[|s| - 1 - k]
    decreases |s|
  {
    if k > 0 {
      ReversedAt(s[..|s| - 1], k - 1);
    }
  }

  /** Reversal turns a concatenation round. */
  lemma {:induction false} ReversedConcat<T>(a: seq<T>, b: seq<T>)
    ensures Reversed(a + b) == Reversed(b) + Reversed(a)
    decreases |b|
  {
    if b == [] {
      assert a + b == a;
    } else {
      var n := |b| - 1;
      assert (a + b)[..|a + b| - 1] == a + b[..n];
      ReversedConcat(a, b[..n]);
    }
  }

  /** Appending at the back of the original is prepending to the reversal. */
  lemma ReversedSnoc<T>(s: seq<T>, x: T)
    ensures Reversed(s + [x]) == [x] + Reversed(s)
  {
    assert (s + [x])[..|s|] == s;
  }
}
