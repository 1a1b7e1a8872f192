/** The two `java.lang.String` operations the topic handling relies on:
    `split("/")` and `String.join("/", levels)`.

    `split` with a one-character, non-metacharacter delimiter scans for the
    delimiter; when none occurs it returns the whole string as the only
    element (so `""` becomes `[""]`), otherwise it keeps every segment,
    leading empty ones included, and then drops the trailing empty ones.
    Segments, joins and trailing-slash stripping are all defined from the
    right-hand end of the string, which is where the interesting cases sit. */
module JavaString {

  /** The topic level delimiter. */
  const Slash: char := '/'

  /** True when `s` contains no delimiter, i.e. it can be a single level. */
  predicate SlashFree(s: string) {
    Slash !in s
  }

  /** True when every element of `segs` is free of the delimiter. */
  predicate AllSlashFree(segs: seq<string>) {
    forall i :: 0 <= i < |segs| ==> SlashFree(segs[i])
  }

  /** The total length of the elements. */
  function TotalLength(segs: seq<string>): nat {
    if |segs| == 0 then 0 else TotalLength(segs[..|segs| - 1]) + |segs[|segs| - 1]|
  }

  /** `String.join("/", segs)`: the elements separated by the delimiter. */
  function Join(segs: seq<string>): string
  {
    if |segs| == 0 then ""
    else if |segs| == 1 then segs[0]
    else Join(segs[..|segs| - 1]) + [Slash] + segs[|segs| - 1]
  }

  /** A join holds every element's characters and one delimiter between
      each pair of neighbours. */
  lemma {:induction false} JoinLength(segs: seq<string>)
    requires |segs| >= 1
    ensures |Join(segs)| == TotalLength(segs) + |segs| - 1
    decreases |segs|
  {
    if |segs| > 1 {
      JoinLength(segs[..|segs| - 1]);
    }
  }

  /** Every delimiter-separated segment of `s`, empty ones included: the
      list the Java split loop builds before it trims trailing empties. */
  function Segments(s: string): (r: seq<string>)
    ensures |r| >= 1
    ensures AllSlashFree(r)
  {
    if |s| == 0 then [""]
    else
      var init := Segments(s[..|s| - 1]);
      if s[|s| - 1] == Slash then init + [""]
      else init[..|init| - 1] + [init[|init| - 1] + [s[|s| - 1]]]
  }

  /** Removes the trailing empty elements, as `split` does with limit 0. */
  function DropTrailingEmpty(segs: seq<string>): (r: seq<string>)
    ensures |r| <= |segs| && r == segs[..|r|]
    ensures |r| > 0 ==> r[|r| - 1] != ""
    ensures forall i :: |r| <= i < |segs| ==> segs[i] == ""
  {
    if |segs| > 0 && segs[|segs| - 1] == "" then DropTrailingEmpty(segs[..|segs| - 1])
    else segs
  }

  /** `s.split("/")`. */
  function Split(s: string): (r: seq<string>)
    ensures AllSlashFree(r)
    ensures |r| > 0 && r[|r| - 1] == "" ==> r == [""] && s == ""
  {
    if Slash !in s then [s] else DropTrailingEmpty(Segments(s))
  }

  /** `s` with every trailing delimiter removed. */
  function StripTrailingSlashes(s: string): (r: string)
    ensures |r| <= |s| && r == s[..|r|]
    ensures |r| == 0 || r[|r| - 1] != Slash
    ensures forall i :: |r| <= i < |s| ==> s[i] == Slash
  {
    if |s| > 0 && s[|s| - 1] == Slash then StripTrailingSlashes(s[..|s| - 1]) else s
  }

  /** Joining the raw segments gives back the string they were cut from. */
  lemma {:induction false} JoinSegments(s: string)
    ensures Join(Segments(s)) == s
  {
    if |s| > 0 {
      var p := s[..|s| - 1];
      var init := Segments(p);
      JoinSegments(p);
      if s[|s| - 1] == Slash {
        assert (init + [""])[..|init|] == init;
      } else {
        var r := init[..|init| - 1] + [init[|init| - 1] + [s[|s| - 1]]];
        assert r[..|r| - 1] == init[..|init| - 1];
        if |init| > 1 {
          assert Join(init) == Join(init[..|init| - 1]) + [Slash] + init[|init| - 1];
        }
        assert s == p + [s[|s| - 1]];
      }
    }
  }

  /** A delimiter-free string is a single segment. */
  lemma {:induction false} SegmentsOfSlashFree(w: string)
    requires SlashFree(w)
    ensures Segments(w) == [w]
  {
    if |w| > 0 {
      var p := w[..|w| - 1];
      assert SlashFree(p) by {
        forall i | 0 <= i < |p| ensures p[i] != Slash {
          assert p[i] == w[i];
        }
      }
      SegmentsOfSlashFree(p);
      assert p + [w[|w| - 1]] == w;
    }
  }

  /** Appending a delimiter and a delimiter-free segment appends one segment. */
  lemma {:induction false} SegmentsAppend(p: string, w: string)
    requires SlashFree(w)
    ensures Segments(p + [Slash] + w) == Segments(p) + [w]
    decreases |w|
  {
    var s := p + [Slash] + w;
    if |w| == 0 {
      assert s[..|s| - 1] == p;
    } else {
      var w' := w[..|w| - 1];
      assert SlashFree(w') by {
        forall i | 0 <= i < |w'| ensures w'[i] != Slash {
          assert w'[i] == w[i];
        }
      }
      SegmentsAppend(p, w');
      assert s[..|s| - 1] == p + [Slash] + w';
      assert s[|s| - 1] == w[|w| - 1];
      var init := Segments(p) + [w'];
      assert init[..|init| - 1] == Segments(p);
      assert w' + [w[|w| - 1]] == w;
    }
  }

  /** Cutting a join of delimiter-free elements gives the elements back, so
      `Segments` is the only segmentation of a string. */
  lemma {:induction false} SegmentsOfJoin(segs: seq<string>)
    requires |segs| >= 1 && AllSlashFree(segs)
    ensures Segments(Join(segs)) == segs
  {
    if |segs| == 1 {
      SegmentsOfSlashFree(segs[0]);
    } else {
      var init := segs[..|segs| - 1];
      assert AllSlashFree(init) by {
        forall i | 0 <= i < |init| ensures SlashFree(init[i]) {
          assert init[i] == segs[i];
        }
      }
      SegmentsOfJoin(init);
      assert SlashFree(segs[|segs| - 1]);
      SegmentsAppend(Join(init), segs[|segs| - 1]);
      assert init + [segs[|segs| - 1]] == segs;
    }
  }

  /** Dropping trailing empty elements before joining strips the trailing
      delimiters after joining. */
  lemma {:induction false} JoinDropTrailingEmpty(segs: seq<string>)
    requires AllSlashFree(segs)
    ensures Join(DropTrailingEmpty(segs)) == StripTrailingSlashes(Join(segs))
  {
    if |segs| > 0 {
      var last := segs[|segs| - 1];
      var init := segs[..|segs| - 1];
      if last == "" {
        assert AllSlashFree(init) by {
          forall i | 0 <= i < |init| ensures SlashFree(init[i]) {
            assert init[i] == segs[i];
          }
        }
        JoinDropTrailingEmpty(init);
        if |segs| > 1 {
          var j := Join(segs);
          assert j == Join(init) + [Slash];
          assert j[..|j| - 1] == Join(init);
        }
      } else {
        assert SlashFree(last);
        var j := Join(segs);
        assert j[|j| - 1] == last[|last| - 1];
      }
    }
  }

  /** `String.join("/", s.split("/"))` is `s` without its trailing
      delimiters: this is how a trailing `/` of a topic gets lost. */
  lemma JoinSplit(s: string)
    ensures Join(Split(s)) == StripTrailingSlashes(s)
  {
    if Slash in s {
      JoinDropTrailingEmpty(Segments(s));
      JoinSegments(s);
    }
  }

  /** A string that does not end with a delimiter survives split and join. */
  lemma JoinSplitNoTrailingSlash(s: string)
    requires |s| == 0 || s[|s| - 1] != Slash
    ensures Join(Split(s)) == s
  {
    JoinSplit(s);
  }

  /** Splitting a join of delimiter-free elements whose last one is not
      empty gives the elements back. */
  lemma SplitJoin(segs: seq<string>)
    requires |segs| >= 1 && AllSlashFree(segs)
    requires segs[|segs| - 1] != "" || segs == [""]
    ensures Split(Join(segs)) == segs
  {
    SegmentsOfJoin(segs);
    if |segs| > 1 {
      var j := Join(segs);
      assert j[|Join(segs[..|segs| - 1])|] == Slash;
    }
  }
}
