/** `key`: the trimmed, lower-case form under which category and item names are compared. */
module Names {
  predicate IsSpace(c: char) {
    c in {' ', '\t', '\n', '\r'}
  }

  function TrimStart(s: string): string {
    if s != "" && IsSpace(s[0]) then TrimStart(s[1..]) else s
  }

  function TrimEnd(s: string): string {
    if s != "" && IsSpace(s[|s| - 1]) then TrimEnd(s[..|s| - 1]) else s
  }

  function Trim(s: string): string {
    TrimEnd(TrimStart(s))
  }

  function Lower(s: string): string {
    seq(|s|, i requires 0 <= i < |s| => if 'A' <= s[i] <= 'Z' then s[i] - 'A' + 'a' else s[i])
  }

  function Key(s: string): string {
    Lower(Trim(s))
  }

  lemma {:induction false} TrimEndShape(s: string)
    ensures TrimEnd(s) <= s
    ensures TrimEnd(s) != "" ==> !IsSpace(TrimEnd(s)[|TrimEnd(s)| - 1])
  {
    if s != "" && IsSpace(s[|s| - 1]) {
      TrimEndShape(s[..|s| - 1]);
    }
  }

  lemma {:induction false} TrimStartShape(s: string)
    ensures TrimStart(s) != "" ==> !IsSpace(TrimStart(s)[0])
  {
    if s != "" && IsSpace(s[0]) {
      TrimStartShape(s[1..]);
    }
  }

  lemma TrimIdempotent(s: string)
    ensures Trim(Trim(s)) == Trim(s)
  {
    TrimStartShape(s);
    TrimEndShape(TrimStart(s));
  }

  /** A name registered in trimmed form is found again under the key of the untrimmed one. */
  lemma KeyOfTrim(s: string)
    ensures Key(Trim(s)) == Key(s)
  {
    TrimIdempotent(s);
  }

  // ----- what a key is -----

  ghost predicate Blank(s: string) {
    forall i :: 0 <= i < |s| ==> s[i] == ' ' || s[i] == '\t' || s[i] == '\n' || s[i] == '\r'
  }

  lemma {:induction false} TrimStartExactly(s: string) returns (lead: string)
    ensures Blank(lead) && s == lead + TrimStart(s)
  {
    if s != "" && IsSpace(s[0]) {
      lead := TrimStartExactly(s[1..]);
      assert s == [s[0]] + s[1..];
      assert [s[0]] + lead + TrimStart(s[1..]) == [s[0]] + (lead + TrimStart(s[1..]));
      lead := [s[0]] + lead;
    } else {
      lead := "";
    }
  }

  lemma {:induction false} TrimEndExactly(s: string) returns (trail: string)
    ensures Blank(trail) && s == TrimEnd(s) + trail
  {
    if s != "" && IsSpace(s[|s| - 1]) {
      var n := |s| - 1;
      trail := TrimEndExactly(s[..n]);
      assert s == s[..n] + [s[n]];
      assert TrimEnd(s[..n]) + (trail + [s[n]]) == TrimEnd(s[..n]) + trail + [s[n]];
      trail := trail + [s[n]];
    } else {
      trail := "";
    }
  }

  /** Trimming takes the blanks off both ends and no more. */
  lemma TrimExactly(s: string) returns (lead: string, trail: string)
    ensures s == lead + Trim(s) + trail && Blank(lead) && Blank(trail)
    ensures Trim(s) != "" ==> !Blank(Trim(s)[..1]) && !Blank(Trim(s)[|Trim(s)| - 1..])
  {
    lead := TrimStartExactly(s);
    trail := TrimEndExactly(TrimStart(s));
    TrimStartShape(s);
    TrimEndShape(TrimStart(s));
    assert lead + (Trim(s) + trail) == lead + Trim(s) + trail;
    if Trim(s) != "" {
      assert Trim(s)[0] == TrimStart(s)[0];
      assert Trim(s)[..1] == [Trim(s)[0]];
      assert Trim(s)[|Trim(s)| - 1..] == [Trim(s)[|Trim(s)| - 1]];
      assert !IsSpace(Trim(s)[..1][0]) && !IsSpace(Trim(s)[|Trim(s)| - 1..][0]);
    }
  }

  /** Two characters that differ at most in case. */
  ghost predicate SameLetter(a: char, b: char) {
    || a == b
    || ('A' <= a <= 'Z' && b as int == a as int + 32)
    || ('A' <= b <= 'Z' && a as int == b as int + 32)
  }

  /** Two texts have one key exactly when, trimmed, they differ at most in case. */
  lemma SameKeyExactly(s: string, t: string)
    ensures Key(s) == Key(t) <==>
      |Trim(s)| == |Trim(t)| && forall i :: 0 <= i < |Trim(s)| ==> SameLetter(Trim(s)[i], Trim(t)[i])
  {
    hide Trim;
    if Key(s) == Key(t) {
      forall i | 0 <= i < |Trim(s)| ensures i < |Trim(t)| && SameLetter(Trim(s)[i], Trim(t)[i]) {
        assert Key(s)[i] == Key(t)[i];
      }
    }
    if |Trim(s)| == |Trim(t)| && forall i :: 0 <= i < |Trim(s)| ==> SameLetter(Trim(s)[i], Trim(t)[i]) {
      forall i | 0 <= i < |Trim(s)| ensures Key(s)[i] == Key(t)[i] {
        assert SameLetter(Trim(s)[i], Trim(t)[i]);
      }
    }
  }
}
