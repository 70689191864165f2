/** `validateEmail`: the test of the lowercased address against the regular expression
    `^[^\s@]+@[^\s@]+\.[^\s@]+$`.

    The pattern is run by a deterministic automaton (`Step`, `Run`); the meaning the pattern
    is written to have is `IsEmailShape`: the address splits as `L + "@" + D + "." + T` with
    three non-empty segments none of which holds whitespace or `@`. `ValidateEmailIff` proves
    that the two agree. */
module EmailShape {
  import opened JsText

  /** A character of the class `[^\s@]`. */
  predicate SegmentChar(c: char) {
    !IsWhitespace(c) && c != '@'
  }

  /** States of the automaton for `^[^\s@]+@[^\s@]+\.[^\s@]+$`:
      Start     nothing read yet;
      Local     one or more local-part characters;
      AfterAt   the `@` just read;
      Domain    one or more domain characters, none of them yet a usable `.`;
      AfterDot  a `.` just read that follows at least one domain character;
      Tail      a usable `.` followed by one or more characters (the accepting state);
      Dead      no continuation can match. */
  datatype State = Start | Local | AfterAt | Domain | AfterDot | Tail | Dead

  function Step(q: State, c: char): State {
    match q
    case Start => if SegmentChar(c) then Local else Dead
    case Local => if c == '@' then AfterAt else if SegmentChar(c) then Local else Dead
    case AfterAt => if SegmentChar(c) then Domain else Dead
    case Domain => if c == '.' then AfterDot else if SegmentChar(c) then Domain else Dead
    case AfterDot => if SegmentChar(c) then Tail else Dead
    case Tail => if SegmentChar(c) then Tail else Dead
    case Dead => Dead
  }

  /** The state reached from `q` after reading `s`. */
  function Run(q: State, s: string): State
    decreases |s|
  {
    if s == [] then q else Run(Step(q, s[0]), s[1..])
  }

  /** `pattern.test(String(email).toLowerCase())`. */
  function ValidateEmail(email: string): bool {
    Run(Start, ToLower(email)) == Tail
  }

  // ---------------------------------------------------------------------------------------
  // The shape the pattern describes

  /** Every character of `s` is in `[^\s@]` (the empty string included). */
  ghost predicate SegmentChars(s: string) {
    forall k :: 0 <= k < |s| ==> SegmentChar(s[k])
  }

  /** `s` matches `[^\s@]+`. */
  ghost predicate Segment(s: string) {
    |s| > 0 && SegmentChars(s)
  }

  /** `s` is `L + "@" + D + "." + T` with `L == s[..i]`, `D == s[i + 1..j]`, `T == s[j + 1..]`,
      each a `Segment`. */
  ghost predicate SplitsAt(s: string, i: int, j: int) {
    0 <= i < j < |s| && s[i] == '@' && s[j] == '.'
    && Segment(s[..i]) && Segment(s[i + 1..j]) && Segment(s[j + 1..])
  }

  ghost predicate IsEmailShape(s: string) {
    exists i, j :: SplitsAt(s, i, j)
  }

  // ---------------------------------------------------------------------------------------
  // What is left to read in each state: the language accepted from it

  /** From `Domain`: the rest of the domain, the `.` and a non-empty tail. */
  ghost predicate DotSplit(s: string, j: int) {
    0 <= j < |s| && s[j] == '.' && SegmentChars(s[..j]) && Segment(s[j + 1..])
  }

  /** From `AfterAt`: a non-empty domain, the `.` and a non-empty tail. */
  ghost predicate DomainAndTail(s: string) {
    exists j :: 1 <= j && DotSplit(s, j)
  }

  /** From `Local`: the rest of the local part, the `@`, then `DomainAndTail`. */
  ghost predicate AtSplit(s: string, i: int) {
    0 <= i < |s| && s[i] == '@' && SegmentChars(s[..i]) && DomainAndTail(s[i + 1..])
  }

  lemma SegmentCharsCons(s: string)
    requires s != []
    ensures SegmentChars(s) <==> SegmentChar(s[0]) && SegmentChars(s[1..])
  {
    if SegmentChar(s[0]) && SegmentChars(s[1..]) {
      forall k | 0 <= k < |s| ensures SegmentChar(s[k]) {
        if k > 0 { assert s[k] == s[1..][k - 1]; }
      }
    }
  }

  lemma RunDead(s: string)
    ensures Run(Dead, s) == Dead
  {
  }

  lemma {:induction false} TailAccepts(s: string)
    ensures Run(Tail, s) == Tail <==> SegmentChars(s)
    decreases |s|
  {
    if s != [] {
      SegmentCharsCons(s);
      if SegmentChar(s[0]) {
        TailAccepts(s[1..]);
      } else {
        RunDead(s[1..]);
      }
    }
  }

  lemma AfterDotAccepts(s: string)
    ensures Run(AfterDot, s) == Tail <==> Segment(s)
  {
    if s != [] {
      SegmentCharsCons(s);
      if SegmentChar(s[0]) {
        TailAccepts(s[1..]);
      } else {
        RunDead(s[1..]);
      }
    }
  }

  /** Shifting a `DotSplit` past one leading domain character. */
  lemma DotSplitShift(s: string, j: int)
    requires s != [] && SegmentChar(s[0]) && 0 <= j
    ensures DotSplit(s[1..], j) <==> DotSplit(s, j + 1)
  {
    if 0 <= j < |s| - 1 {
      assert s[1..][j + 1..] == s[j + 2..];
      assert s[..j + 1] == [s[0]] + s[1..][..j];
      SegmentCharsCons(s[..j + 1]);
      assert s[..j + 1][1..] == s[1..][..j];
    }
  }

  lemma {:induction false} DomainAccepts(s: string)
    ensures Run(Domain, s) == Tail <==> exists j :: DotSplit(s, j)
    decreases |s|
  {
    if s == [] {
      return;
    }
    var r := s[1..];
    if s[0] == '.' {
      AfterDotAccepts(r);
      if Segment(r) {
        assert DotSplit(s, 0);
      } else {
        forall j | DotSplit(s, j) ensures false {
          // the dot at `j` and everything around it are segment characters, so `r` is a segment
          assert j > 0;
          assert s[1..j] == s[..j][1..];
          SegmentCharsCons(s[..j]);
          assert r == s[1..j] + [s[j]] + s[j + 1..];
          forall k | 0 <= k < |r| ensures SegmentChar(r[k]) {
            if k < j - 1 {
              assert r[k] == s[1..j][k];
            } else if k >= j {
              assert r[k] == s[j + 1..][k - j];
            }
          }
        }
      }
    } else if SegmentChar(s[0]) {
      DomainAccepts(r);
      if Run(Domain, s) == Tail {
        var j :| DotSplit(r, j);
        DotSplitShift(s, j);
      } else {
        forall j | DotSplit(s, j) ensures false {
          assert j != 0;
          DotSplitShift(s, j - 1);
        }
      }
    } else {
      RunDead(r);
      forall j | DotSplit(s, j) ensures false { }
    }
  }

  lemma AfterAtAccepts(s: string)
    ensures Run(AfterAt, s) == Tail <==> DomainAndTail(s)
  {
    if s == [] {
      return;
    }
    var r := s[1..];
    if SegmentChar(s[0]) {
      DomainAccepts(r);
      if Run(AfterAt, s) == Tail {
        var j :| DotSplit(r, j);
        DotSplitShift(s, j);
        assert 1 <= j + 1 && DotSplit(s, j + 1);
      } else {
        forall j | 1 <= j && DotSplit(s, j) ensures false {
          DotSplitShift(s, j - 1);
        }
      }
    } else {
      RunDead(r);
      forall j | 1 <= j && DotSplit(s, j) ensures false { }
    }
  }

  /** Shifting an `AtSplit` past one leading local-part character. */
  lemma AtSplitShift(s: string, i: int)
    requires s != [] && SegmentChar(s[0]) && 0 <= i
    ensures AtSplit(s[1..], i) <==> AtSplit(s, i + 1)
  {
    if 0 <= i < |s| - 1 {
      assert s[1..][i + 1..] == s[i + 2..];
      assert s[..i + 1] == [s[0]] + s[1..][..i];
      SegmentCharsCons(s[..i + 1]);
      assert s[..i + 1][1..] == s[1..][..i];
    }
  }

  lemma {:induction false} LocalAccepts(s: string)
    ensures Run(Local, s) == Tail <==> exists i :: AtSplit(s, i)
    decreases |s|
  {
    if s == [] {
      return;
    }
    var r := s[1..];
    if s[0] == '@' {
      AfterAtAccepts(r);
      if Run(Local, s) == Tail {
        assert AtSplit(s, 0);
      } else {
        forall i | AtSplit(s, i) ensures false { }
      }
    } else if SegmentChar(s[0]) {
      LocalAccepts(r);
      if Run(Local, s) == Tail {
        var i :| AtSplit(r, i);
        AtSplitShift(s, i);
      } else {
        forall i | AtSplit(s, i) ensures false {
          AtSplitShift(s, i - 1);
        }
      }
    } else {
      RunDead(r);
      forall i | AtSplit(s, i) ensures false { }
    }
  }

  lemma StartAccepts(s: string)
    ensures Run(Start, s) == Tail <==> exists i :: 1 <= i && AtSplit(s, i)
  {
    if s == [] {
      return;
    }
    var r := s[1..];
    if SegmentChar(s[0]) {
      LocalAccepts(r);
      if Run(Start, s) == Tail {
        var i :| AtSplit(r, i);
        AtSplitShift(s, i);
        assert 1 <= i + 1 && AtSplit(s, i + 1);
      } else {
        forall i | 1 <= i && AtSplit(s, i) ensures false {
          AtSplitShift(s, i - 1);
        }
      }
    } else {
      RunDead(r);
      forall i | 1 <= i && AtSplit(s, i) ensures false { }
    }
  }

  /** The nested description the automaton follows is the flat `L @ D . T` split. */
  lemma AtSplitIsSplit(s: string)
    ensures (exists i :: 1 <= i && AtSplit(s, i)) <==> IsEmailShape(s)
  {
    if exists i :: 1 <= i && AtSplit(s, i) {
      var i :| 1 <= i && AtSplit(s, i);
      var t := s[i + 1..];
      var j' :| 1 <= j' && DotSplit(t, j');
      assert t[..j'] == s[i + 1..i + 1 + j'];
      assert t[j' + 1..] == s[i + 1 + j' + 1..];
      assert SplitsAt(s, i, i + 1 + j');
    }
    if IsEmailShape(s) {
      var i, j :| SplitsAt(s, i, j);
      var t := s[i + 1..];
      assert t[..j - i - 1] == s[i + 1..j];
      assert t[j - i..] == s[j + 1..];
      assert DotSplit(t, j - i - 1);
      assert AtSplit(s, i);
    }
  }

  /** Lowercasing keeps every character's class, so the automaton cannot tell the difference. */
  lemma {:induction false} RunIgnoresCase(q: State, s: string)
    ensures Run(q, ToLower(s)) == Run(q, s)
    decreases |s|
  {
    if s != [] {
      assert ToLower(s)[1..] == ToLower(s[1..]);
      assert Step(q, ToLower(s)[0]) == Step(q, s[0]);
      RunIgnoresCase(Step(q, s[0]), s[1..]);
    }
  }

  /** `validateEmail` accepts exactly the addresses of the shape `L@D.T`. */
  lemma ValidateEmailIff(email: string)
    ensures ValidateEmail(email) <==> IsEmailShape(email)
  {
    RunIgnoresCase(Start, email);
    StartAccepts(email);
    AtSplitIsSplit(email);
  }

  // ---------------------------------------------------------------------------------------
  // Consequences

  /** Any three segments joined as `L@D.T` are accepted. */
  lemma AcceptsJoined(l: string, d: string, t: string)
    requires Segment(l) && Segment(d) && Segment(t)
    ensures ValidateEmail(l + "@" + d + "." + t)
  {
    var s := l + "@" + d + "." + t;
    var i, j := |l|, |l| + 1 + |d|;
    assert s[..i] == l && s[i + 1..j] == d && s[j + 1..] == t;
    assert SplitsAt(s, i, j);
    ValidateEmailIff(s);
  }

  lemma SplitJoins(s: string, i: int, j: int)
    requires SplitsAt(s, i, j)
    ensures s == s[..i] + "@" + s[i + 1..j] + "." + s[j + 1..]
  {
    assert s == s[..i] + [s[i]] + s[i + 1..j] + [s[j]] + s[j + 1..];
  }

  /** Every accepted address comes apart as `L@D.T`. */
  lemma SplitAccepted(email: string) returns (l: string, d: string, t: string)
    requires ValidateEmail(email)
    ensures Segment(l) && Segment(d) && Segment(t)
    ensures email == l + "@" + d + "." + t
  {
    ValidateEmailIff(email);
    var i, j :| SplitsAt(email, i, j);
    l, d, t := email[..i], email[i + 1..j], email[j + 1..];
    SplitJoins(email, i, j);
  }

  /** An accepted address holds exactly one `@` and no whitespace. */
  lemma AcceptedHasOneAt(email: string)
    requires ValidateEmail(email)
    ensures multiset(email)['@'] == 1
    ensures forall k :: 0 <= k < |email| ==> !IsWhitespace(email[k])
  {
    var l, d, t := SplitAccepted(email);
    assert '@' !in l && '@' !in d && '@' !in t;
    assert multiset(email) == multiset(l) + multiset{'@'} + multiset(d) + multiset{'.'} + multiset(t);
    forall k | 0 <= k < |email| ensures !IsWhitespace(email[k]) {
      if k < |l| {
        assert email[k] == l[k];
      } else if k == |l| || k == |l| + 1 + |d| {
      } else if k < |l| + 1 + |d| {
        assert email[k] == d[k - |l| - 1];
      } else {
        assert email[k] == t[k - |l| - 2 - |d|];
      }
    }
  }

  /** The address is not trimmed first: a blank before or after it makes it fail. */
  lemma PaddingRejected(email: string, c: char)
    requires IsWhitespace(c)
    ensures !ValidateEmail([c] + email) && !ValidateEmail(email + [c])
  {
    assert ([c] + email)[0] == c && (email + [c])[|email|] == c;
    if ValidateEmail([c] + email) {
      AcceptedHasOneAt([c] + email);
    }
    if ValidateEmail(email + [c]) {
      AcceptedHasOneAt(email + [c]);
    }
  }

  /** Ordinary sample addresses are accepted, in any case. */
  lemma AcceptedExamples()
    ensures ValidateEmail("a@b.co")
    ensures ValidateEmail("A@B.CO")
  {
    AcceptsJoined("a", "b", "co");
    assert "a" + "@" + "b" + "." + "co" == "a@b.co";
    AcceptsJoined("A", "B", "CO");
    assert "A" + "@" + "B" + "." + "CO" == "A@B.CO";
  }

  /** A doubled `@` is rejected. */
  lemma RejectsDoubleAt()
    ensures !ValidateEmail("a@@b.co")
  {
    if ValidateEmail("a@@b.co") {
      AcceptedHasOneAt("a@@b.co");
    }
  }

  /** An address without `@` is rejected. */
  lemma RejectsNoAt(email: string)
    requires '@' !in email
    ensures !ValidateEmail(email)
  {
    assert multiset(email)['@'] == 0;
    if ValidateEmail(email) {
      AcceptedHasOneAt(email);
    }
  }

  /** `plainstring`, which has no `@`, is rejected. */
  lemma RejectsPlainString()
    ensures !ValidateEmail("plainstring")
  {
    assert '@' !in "plainstring";
    RejectsNoAt("plainstring");
  }

  /** A domain without a dot is rejected. */
  lemma RejectsNoDot()
    ensures !ValidateEmail("a@b")
  {
    if ValidateEmail("a@b") {
      var l, d, t := SplitAccepted("a@b");
    }
  }
}
