/** `get_output_file`: derives the output file name and its sub-folder from a
    sample's input file name, with Python's `str.replace` (left to right,
    non-overlapping) and the leftmost match of `re.search(r'\w+/spad_', ...)`.
    `\w` is read as the ASCII word characters. */
module OutputPath {
  import opened Wrappers

  predicate StartsWith(s: string, p: string)
  {
    |p| <= |s| && s[..|p|] == p
  }

  /** True when `pat` occurs nowhere in s. */
  predicate Absent(s: string, pat: string)
  {
    forall i :: 0 <= i <= |s| ==> !StartsWith(s[i..], pat)
  }

  /** `s.replace("", rep)`: rep inserted before every character and at the end. */
  function InsertEverywhere(s: string, rep: string): string
  {
    if s == [] then rep else rep + [s[0]] + InsertEverywhere(s[1..], rep)
  }

  /** `s.replace(pat, rep)`: scans left to right, replacing each occurrence of
      pat and resuming after it. */
  function Replace(s: string, pat: string, rep: string): string
    decreases |s|
  {
    if pat == [] then InsertEverywhere(s, rep)
    else if StartsWith(s, pat) then rep + Replace(s[|pat|..], pat, rep)
    else if s == [] then []
    else [s[0]] + Replace(s[1..], pat, rep)
  }

  /** Stripping the empty string leaves s unchanged. */
  lemma {:induction false} InsertNothing(s: string)
    ensures InsertEverywhere(s, "") == s
  {
    if s != [] {
      InsertNothing(s[1..]);
    }
  }

  /** A string without the pattern is returned unchanged. */
  lemma {:induction false} ReplaceAbsent(s: string, pat: string, rep: string)
    requires pat != []
    requires Absent(s, pat)
    ensures Replace(s, pat, rep) == s
  {
    if s != [] {
      assert !StartsWith(s[0..], pat);
      assert Absent(s[1..], pat) by {
        forall i | 0 <= i <= |s[1..]|
          ensures !StartsWith(s[1..][i..], pat)
        {
          assert s[1..][i..] == s[i + 1..];
        }
      }
      ReplaceAbsent(s[1..], pat, rep);
    }
  }

  /** A step of the scan at an occurrence: it is replaced and skipped. */
  lemma {:induction false} ReplaceAtMatch(s: string, pat: string, rep: string)
    requires pat != [] && StartsWith(s, pat)
    ensures Replace(s, pat, rep) == rep + Replace(s[|pat|..], pat, rep)
  {
  }

  /** A step of the scan elsewhere: the character is kept. */
  lemma {:induction false} ReplaceAtOther(s: string, pat: string, rep: string)
    requires pat != [] && s != [] && !StartsWith(s, pat)
    ensures Replace(s, pat, rep) == [s[0]] + Replace(s[1..], pat, rep)
  {
  }

  /** The leftmost occurrence is replaced first: when a + pat + b holds no
      earlier occurrence of pat, the prefix a is kept and scanning resumes
      after the replaced occurrence. */
  lemma {:induction false} ReplaceLeftmost(a: string, b: string, pat: string, rep: string)
    requires pat != []
    requires forall i :: 0 <= i < |a| ==> !StartsWith((a + pat + b)[i..], pat)
    ensures Replace(a + pat + b, pat, rep) == a + rep + Replace(b, pat, rep)
  {
    var s := a + pat + b;
    if a == [] {
      assert s == pat + b && s[..|pat|] == pat && s[|pat|..] == b;
      ReplaceAtMatch(s, pat, rep);
    } else {
      var t := a[1..] + pat + b;
      forall i | 0 <= i < |a[1..]|
        ensures !StartsWith(t[i..], pat)
      {
        assert t[i..] == s[i + 1..];
      }
      ReplaceLeftmost(a[1..], b, pat, rep);
      assert s[0..] == s;
      LeftmostStep(a, b, pat, rep);
    }
  }

  /** One step of ReplaceLeftmost: a character of a that starts no occurrence
      is copied, and the rest is the shorter case. */
  lemma {:induction false} LeftmostStep(a: string, b: string, pat: string, rep: string)
    requires pat != [] && a != [] && !StartsWith(a + pat + b, pat)
    requires Replace(a[1..] + pat + b, pat, rep) == a[1..] + rep + Replace(b, pat, rep)
    ensures Replace(a + pat + b, pat, rep) == a + rep + Replace(b, pat, rep)
  {
    DropAppend(a + pat, b, 1);
    DropAppend(a, pat, 1);
    ReplaceAtOther(a + pat + b, pat, rep);
    Regroup([a[0]], a[1..], rep, Replace(b, pat, rep));
    assert [a[0]] + a[1..] == a;
  }

  lemma TakeAppend<T>(a: seq<T>, t: seq<T>, n: nat)
    requires n <= |a|
    ensures (a + t)[..n] == a[..n]
  {
  }

  lemma DropAppend<T>(a: seq<T>, t: seq<T>, n: nat)
    requires n <= |a|
    ensures (a + t)[n..] == a[n..] + t
  {
  }

  lemma Regroup<T>(w: seq<T>, x: seq<T>, y: seq<T>, z: seq<T>)
    ensures w + (x + y + z) == (w + x) + y + z
  {
  }

  /** An occurrence that starts in a and does not start there alone would have
      to contain the first character of the tail. */
  lemma {:induction false} NoOccurrenceBefore(a: string, tail: string, pat: string)
    requires pat != [] && tail != [] && tail[0] !in pat && !StartsWith(a, pat)
    ensures !StartsWith(a + tail, pat)
  {
    var s := a + tail;
    if |pat| <= |a| {
      TakeAppend(a, tail, |pat|);
    } else if |pat| <= |s| {
      assert s[..|pat|][|a|] == tail[0];
    }
  }

  /** A character that the pattern does not contain splits the replacement:
      no occurrence can straddle it. */
  lemma {:induction false} ReplaceAcross(a: string, tail: string, pat: string, rep: string)
    requires pat != [] && tail != [] && tail[0] !in pat
    ensures Replace(a + tail, pat, rep) == Replace(a, pat, rep) + [tail[0]] + Replace(tail[1..], pat, rep)
    decreases |a|
  {
    if StartsWith(a, pat) {
      ReplaceAcross(a[|pat|..], tail, pat, rep);
      AcrossAfterMatch(a, tail, pat, rep);
    } else if a == [] {
      AcrossAtStart(tail, pat, rep);
    } else {
      ReplaceAcross(a[1..], tail, pat, rep);
      AcrossAfterOther(a, tail, pat, rep);
    }
  }

  /** ReplaceAcross when a is empty. */
  lemma {:induction false} AcrossAtStart(tail: string, pat: string, rep: string)
    requires pat != [] && tail != [] && tail[0] !in pat
    ensures Replace([] + tail, pat, rep) == Replace([], pat, rep) + [tail[0]] + Replace(tail[1..], pat, rep)
  {
    var y := Replace(tail[1..], pat, rep);
    NoOccurrenceBefore([], tail, pat);
    assert [] + tail == tail;
    ReplaceAtOther(tail, pat, rep);
    ReplaceEmpty(pat, rep);
    assert [] + [tail[0]] + y == [tail[0]] + y;
  }

  lemma {:induction false} ReplaceEmpty(pat: string, rep: string)
    requires pat != []
    ensures Replace([], pat, rep) == []
  {
  }

  /** ReplaceAcross when a starts with an occurrence, from the case for the
      rest of a. */
  lemma {:induction false} AcrossAfterMatch(a: string, tail: string, pat: string, rep: string)
    requires pat != [] && tail != [] && tail[0] !in pat && StartsWith(a, pat)
    requires Replace(a[|pat|..] + tail, pat, rep)
             == Replace(a[|pat|..], pat, rep) + [tail[0]] + Replace(tail[1..], pat, rep)
    ensures Replace(a + tail, pat, rep) == Replace(a, pat, rep) + [tail[0]] + Replace(tail[1..], pat, rep)
  {
    var x, y := Replace(a[|pat|..], pat, rep), Replace(tail[1..], pat, rep);
    TakeAppend(a, tail, |pat|);
    DropAppend(a, tail, |pat|);
    ReplaceAtMatch(a + tail, pat, rep);
    ReplaceAtMatch(a, pat, rep);
    Regroup(rep, x, [tail[0]], y);
  }

  /** ReplaceAcross when a starts with a character that begins no occurrence,
      from the case for the rest of a. */
  lemma {:induction false} AcrossAfterOther(a: string, tail: string, pat: string, rep: string)
    requires pat != [] && tail != [] && tail[0] !in pat && a != [] && !StartsWith(a, pat)
    requires Replace(a[1..] + tail, pat, rep) == Replace(a[1..], pat, rep) + [tail[0]] + Replace(tail[1..], pat, rep)
    ensures Replace(a + tail, pat, rep) == Replace(a, pat, rep) + [tail[0]] + Replace(tail[1..], pat, rep)
  {
    var x, y := Replace(a[1..], pat, rep), Replace(tail[1..], pat, rep);
    NoOccurrenceBefore(a, tail, pat);
    DropAppend(a, tail, 1);
    ReplaceAtOther(a + tail, pat, rep);
    ReplaceAtOther(a, pat, rep);
    Regroup([a[0]], x, [tail[0]], y);
  }

  /** A replacement of the same length (".mat" by ".npy") keeps the length. */
  lemma {:induction false} ReplaceKeepsLength(s: string, pat: string, rep: string)
    requires pat != [] && |pat| == |rep|
    ensures |Replace(s, pat, rep)| == |s|
    decreases |s|
  {
    if StartsWith(s, pat) {
      ReplaceKeepsLength(s[|pat|..], pat, rep);
    } else if s != [] {
      ReplaceKeepsLength(s[1..], pat, rep);
    }
  }

  /** `\w` over ASCII. */
  predicate IsWordChar(ch: char)
  {
    'a' <= ch <= 'z' || 'A' <= ch <= 'Z' || '0' <= ch <= '9' || ch == '_'
  }

  /** What follows the `\w+` of the pattern. */
  const Marker: string := "/spad_"

  /** End of the longest run of word characters starting at i. */
  function WordRunEnd(s: string, i: nat): (j: nat)
    requires i <= |s|
    ensures i <= j <= |s|
    ensures forall k :: i <= k < j ==> IsWordChar(s[k])
    ensures j < |s| ==> !IsWordChar(s[j])
    decreases |s| - i
  {
    if i < |s| && IsWordChar(s[i]) then WordRunEnd(s, i + 1) else i
  }

  /** The regular expression's own reading of a match of `\w+/spad_` at i:
      a non-empty run of word characters s[i..j], then "/spad_". */
  ghost predicate RegexMatch(s: string, i: nat, j: nat)
  {
    i < j <= |s| && (forall k :: i <= k < j ==> IsWordChar(s[k])) && StartsWith(s[j..], Marker)
  }

  /** A match at i computed from the word run at i. */
  predicate MatchesAt(s: string, i: nat)
  {
    i < |s| && IsWordChar(s[i]) && StartsWith(s[WordRunEnd(s, i)..], Marker)
  }

  /** MatchesAt is exactly the regular expression's reading, and the greedy
      `\w+` has only one way to match: it ends where the word run ends, since
      '/' is not a word character. */
  lemma MatchesAtIsRegexMatch(s: string, i: nat)
    ensures MatchesAt(s, i) <==> exists j :: RegexMatch(s, i, j)
    ensures forall j :: RegexMatch(s, i, j) ==> j == WordRunEnd(s, i)
  {
    forall j: nat | RegexMatch(s, i, j)
      ensures j == WordRunEnd(s, i)
    {
      var e := WordRunEnd(s, i);
      assert s[j] == '/' by { assert s[j..][0] == Marker[0]; }
      assert !IsWordChar(s[j]);
      assert e < |s| ==> !IsWordChar(s[e]);
    }
    if MatchesAt(s, i) {
      assert RegexMatch(s, i, WordRunEnd(s, i));
    }
  }

  /** The pattern matches somewhere in s. */
  predicate HasMatch(s: string)
  {
    exists k: nat :: k < |s| && MatchesAt(s, k)
  }

  /** `re.search` from position i on: the leftmost start of a match. */
  function SearchFrom(s: string, i: nat): (r: Option<nat>)
    requires i <= |s|
    ensures r.Some? ==> i <= r.value && MatchesAt(s, r.value)
    ensures r.Some? ==> forall k :: i <= k < r.value ==> !MatchesAt(s, k)
    ensures r.None? ==> forall k :: i <= k ==> !MatchesAt(s, k)
    decreases |s| - i
  {
    if i == |s| then None
    else if MatchesAt(s, i) then Some(i)
    else SearchFrom(s, i + 1)
  }

  /** f ends with the marker "/spad_". */
  predicate EndsWithMarker(f: string)
  {
    |f| >= |Marker| && f[|f| - |Marker|..] == Marker
  }

  /** `re.search(r'\w+/spad_', s).group(0)`, or None when there is no match. */
  function Search(s: string): (r: Option<string>)
    ensures r.None? <==> !HasMatch(s)
    ensures r.Some? ==> |r.value| > |Marker| && EndsWithMarker(r.value)
    ensures r.Some? ==> forall k :: 0 <= k < |r.value| - |Marker| ==> IsWordChar(r.value[k])
    ensures r.Some? ==> exists i :: SearchFrom(s, 0) == Some(i) && r.value == s[i..WordRunEnd(s, i) + |Marker|]
  {
    match SearchFrom(s, 0)
    case None => None
    case Some(i) =>
      var j := WordRunEnd(s, i);
      assert s[j..][..|Marker|] == s[j..j + |Marker|];
      Some(s[i..j + |Marker|])
  }

  /** Removing "spad_" from a match leaves its word run, with any "spad_"
      inside removed, and the '/' of the marker at the end. */
  lemma {:induction false} StripMarker(word: string)
    ensures Replace(word + Marker, "spad_", "") == Replace(word, "spad_", "") + "/"
  {
    assert Marker[1..] == "spad_";
    ReplaceAcross(word, Marker, "spad_", "");
    assert Replace("spad_", "spad_", "") == "" by {
      ReplaceLeftmost("", "", "spad_", "");
      assert "" + "spad_" + "" == "spad_";
    }
  }

  /** `out_datapath + match.replace('spad_', '')`: the sub-folder named by a
      match; it ends with the '/' of the marker. */
  function Subfolder(outDatapath: string, found: string): (d: string)
    requires EndsWithMarker(found)
    ensures StartsWith(d, outDatapath)
    ensures |d| > |outDatapath| && d[|d| - 1] == '/'
    ensures d == outDatapath + Replace(found[..|found| - |Marker|], "spad_", "") + "/"
  {
    var word := found[..|found| - |Marker|];
    assert found == word + Marker;
    StripMarker(word);
    outDatapath + Replace(found, "spad_", "")
  }

  datatype OutputPaths = OutputPaths(outFilename: string, subfolder: string)

  /** `filename.replace('.mat', '.npy').replace(spad_datapath, '')`. */
  function StrippedName(filename: string, spadDatapath: string): string
  {
    Replace(Replace(filename, ".mat", ".npy"), spadDatapath, "")
  }

  /** The output file name and sub-folder for a sample. When the pattern does
      not match, `.group(0)` is called on None and the program raises; the
      model returns None. */
  function GetOutputFile(filename: string, spadDatapath: string, outDatapath: string): (r: Option<OutputPaths>)
    ensures r.None? <==> !HasMatch(StrippedName(filename, spadDatapath))
    ensures r.Some? ==> StartsWith(r.value.subfolder, outDatapath)
    ensures r.Some? ==> |r.value.subfolder| > |outDatapath| && r.value.subfolder[|r.value.subfolder| - 1] == '/'
    ensures r.Some? ==> r.value.outFilename == Replace(StrippedName(filename, spadDatapath), "spad_", "")
  {
    var outFilename := StrippedName(filename, spadDatapath);
    var found := Search(outFilename);
    if found.None? then None
    else Some(OutputPaths(Replace(outFilename, "spad_", ""), Subfolder(outDatapath, found.value)))
  }

  /** The sub-folder comes from the leftmost match of the stripped name: it is
      out_datapath, then that match's word run with "spad_" removed, then '/'. */
  lemma SubfolderOfLeftmostMatch(filename: string, spadDatapath: string, outDatapath: string)
    requires GetOutputFile(filename, spadDatapath, outDatapath).Some?
    ensures var name := StrippedName(filename, spadDatapath);
            exists i :: SearchFrom(name, 0) == Some(i) &&
              GetOutputFile(filename, spadDatapath, outDatapath).value.subfolder
                == outDatapath + Replace(name[i..WordRunEnd(name, i)], "spad_", "") + "/"
  {
    var name := StrippedName(filename, spadDatapath);
    var found := Search(name).value;
    SearchWord(name);
    assert GetOutputFile(filename, spadDatapath, outDatapath).value.subfolder == Subfolder(outDatapath, found);
  }

  /** The word part of a search result is the word run at the leftmost match. */
  lemma SearchWord(s: string)
    requires Search(s).Some?
    ensures SearchFrom(s, 0).Some?
    ensures var found, i := Search(s).value, SearchFrom(s, 0).value;
            found[..|found| - |Marker|] == s[i..WordRunEnd(s, i)]
  {
    var found, i := Search(s).value, SearchFrom(s, 0).value;
    var e := WordRunEnd(s, i);
    assert found == s[i..e + |Marker|];
    assert found[..e - i] == s[i..e];
  }
}
