/** The two `java.lang.String` operations the event-list parser relies on:
    `split(",")` and `trim()`, with Java's own edge cases. */
module JavaStrings {

  // ---------------------------------------------------------------- trim()

  /** `String.trim()` strips every character whose code is at most U+0020. */
  predicate IsTrimChar(c: char) {
    c <= ' '
  }

  predicate AllTrimChars(s: string) {
    forall i :: 0 <= i < |s| ==> IsTrimChar(s[i])
  }

  /** `s` does not start or end with a character `trim()` would remove. */
  predicate IsTrimmed(s: string) {
    s == [] || (!IsTrimChar(s[0]) && !IsTrimChar(s[|s| - 1]))
  }

  /** `s` without its leading trim characters. */
  function TrimStart(s: string): (r: string)
    ensures |r| <= |s|
    ensures r == [] || !IsTrimChar(r[0])
  {
    if s != [] && IsTrimChar(s[0]) then TrimStart(s[1..]) else s
  }

  /** `s` without its trailing trim characters. */
  function TrimEnd(s: string): (r: string)
    ensures |r| <= |s|
    ensures r == [] || !IsTrimChar(r[|r| - 1])
  {
    if s != [] && IsTrimChar(s[|s| - 1]) then TrimEnd(s[..|s| - 1]) else s
  }

  /** `s.trim()`. */
  function Trim(s: string): (r: string)
    ensures |r| <= |s| && IsTrimmed(r)
  {
    TrimEndPrefix(TrimStart(s));
    TrimEnd(TrimStart(s))
  }

  /** `TrimStart` cuts off a prefix made only of trim characters. */
  lemma {:induction false} TrimStartSuffix(s: string)
    ensures TrimStart(s) == s[|s| - |TrimStart(s)|..]
    ensures AllTrimChars(s[..|s| - |TrimStart(s)|])
    decreases |s|
  {
    if s != [] && IsTrimChar(s[0]) {
      TrimStartSuffix(s[1..]);
      var k := |s| - |TrimStart(s)|;
      assert s[..k] == [s[0]] + s[1..][..k - 1];
    }
  }

  /** `TrimEnd` cuts off a suffix made only of trim characters. */
  lemma {:induction false} TrimEndPrefix(s: string)
    ensures TrimEnd(s) == s[..|TrimEnd(s)|]
    ensures AllTrimChars(s[|TrimEnd(s)|..])
    decreases |s|
  {
    if s != [] && IsTrimChar(s[|s| - 1]) {
      var p := s[..|s| - 1];
      TrimEndPrefix(p);
      var k := |TrimEnd(s)|;
      assert s[k..] == p[k..] + [s[|s| - 1]];
    }
  }

  /** `trim()` keeps a middle part of `s` that neither starts nor ends with a
      trim character, and cuts off only trim characters around it. */
  lemma TrimSpec(s: string)
    ensures exists i :: 0 <= i <= |s| - |Trim(s)| && Trim(s) == s[i..i + |Trim(s)|]
                        && AllTrimChars(s[..i]) && AllTrimChars(s[i + |Trim(s)|..])
  {
    var t := TrimStart(s);
    var r := TrimEnd(t);
    TrimStartSuffix(s);
    TrimEndPrefix(t);
    var i := |s| - |t|;
    assert s[i..i + |r|] == r;
    assert s[i + |r|..] == t[|r|..];
  }

  lemma {:induction false} TrimStartPadded(lead: string, w: string)
    requires AllTrimChars(lead)
    requires w == [] || !IsTrimChar(w[0])
    ensures TrimStart(lead + w) == w
    decreases |lead|
  {
    if lead != [] {
      assert (lead + w)[1..] == lead[1..] + w;
      TrimStartPadded(lead[1..], w);
    } else {
      assert lead + w == w;
    }
  }

  lemma {:induction false} TrimEndPadded(w: string, tail: string)
    requires AllTrimChars(tail)
    requires w == [] || !IsTrimChar(w[|w| - 1])
    ensures TrimEnd(w + tail) == w
    decreases |tail|
  {
    if tail != [] {
      assert (w + tail)[..|w + tail| - 1] == w + tail[..|tail| - 1];
      TrimEndPadded(w, tail[..|tail| - 1]);
    } else {
      assert w + tail == w;
    }
  }

  /** Trimming undoes padding: a word that starts and ends with a visible
      character, surrounded by trim characters, trims back to the word. */
  lemma TrimPadded(lead: string, w: string, tail: string)
    requires AllTrimChars(lead) && AllTrimChars(tail)
    requires w != [] && IsTrimmed(w)
    ensures Trim(lead + w + tail) == w
  {
    assert lead + w + tail == lead + (w + tail);
    TrimStartPadded(lead, w + tail);
    TrimEndPadded(w, tail);
  }

  // ---------------------------------------------------------------- split(",")

  /** Every piece between the commas of `s`, empty ones included: what
      `split` computes before it drops the trailing empty strings. */
  function Pieces(s: string): (r: seq<string>)
    ensures |r| >= 1
    ensures forall i :: 0 <= i < |r| ==> ',' !in r[i]
    decreases |s|
  {
    if s == [] then [""]
    else
      var rest := Pieces(s[1..]);
      if s[0] == ',' then [""] + rest
      else [[s[0]] + rest[0]] + rest[1..]
  }

  /** `String.join(",", ts)`. */
  function Join(ts: seq<string>): string
  {
    if |ts| == 0 then ""
    else if |ts| == 1 then ts[0]
    else ts[0] + "," + Join(ts[1..])
  }

  /** Joining the pieces of `s` with commas gives back `s`. */
  lemma {:induction false} JoinPieces(s: string)
    ensures Join(Pieces(s)) == s
    decreases |s|
  {
    if s != [] {
      var rest := Pieces(s[1..]);
      JoinPieces(s[1..]);
      if s[0] == ',' {
        assert Pieces(s) == [""] + rest;
        assert ([""] + rest)[1..] == rest;
        assert Join(Pieces(s)) == "" + "," + s[1..];
        assert s == [s[0]] + s[1..];
      } else if |rest| == 1 {
        assert Pieces(s) == [[s[0]] + rest[0]];
        assert s == [s[0]] + s[1..];
      } else {
        var p := Pieces(s);
        assert p == [[s[0]] + rest[0]] + rest[1..];
        assert p[1..] == rest[1..];
        assert Join(rest) == rest[0] + "," + Join(rest[1..]);
        assert Join(p) == [s[0]] + rest[0] + "," + Join(rest[1..]);
        assert s == [s[0]] + s[1..];
      }
    }
  }

  lemma {:induction false} PiecesOfPrefixed(w: string, tail: string)
    requires ',' !in w
    ensures Pieces(w + tail) == [w + Pieces(tail)[0]] + Pieces(tail)[1..]
    decreases |w|
  {
    if w == [] {
      assert w + tail == tail;
      assert Pieces(tail) == [Pieces(tail)[0]] + Pieces(tail)[1..];
      assert w + Pieces(tail)[0] == Pieces(tail)[0];
    } else {
      assert (w + tail)[1..] == w[1..] + tail;
      PiecesOfPrefixed(w[1..], tail);
      assert w[0] != ',' && (w + tail)[0] == w[0];
      var p := Pieces(tail);
      assert Pieces(w + tail) == [[w[0]] + (w[1..] + p[0])] + p[1..];
      assert [w[0]] + (w[1..] + p[0]) == w + p[0];
    }
  }

  /** Splitting comma-free pieces joined with commas gives the pieces back. */
  lemma {:induction false} PiecesJoin(ts: seq<string>)
    requires |ts| >= 1
    requires forall i :: 0 <= i < |ts| ==> ',' !in ts[i]
    ensures Pieces(Join(ts)) == ts
    decreases |ts|
  {
    if |ts| == 1 {
      PiecesOfPrefixed(ts[0], "");
      assert ts[0] + "" == ts[0];
    } else {
      PiecesJoin(ts[1..]);
      var rest := "," + Join(ts[1..]);
      PiecesOfPrefixed(ts[0], rest);
      assert rest[1..] == Join(ts[1..]);
      assert Pieces(rest) == [""] + ts[1..];
      assert ts[0] + "" == ts[0];
      assert Join(ts) == ts[0] + rest;
      assert ts == [ts[0]] + ts[1..];
    }
  }

  /** `ts` without its trailing empty strings. */
  function DropTrailingEmpty(ts: seq<string>): (r: seq<string>)
    ensures |r| <= |ts| && r == ts[..|r|]
    ensures forall i :: |r| <= i < |ts| ==> ts[i] == ""
    ensures r == [] || r[|r| - 1] != ""
  {
    if ts != [] && ts[|ts| - 1] == "" then DropTrailingEmpty(ts[..|ts| - 1]) else ts
  }

  /** `s.split(",")`. Without a comma the result is `[s]`, even for the empty
      string; otherwise it is the pieces between the commas, leading and
      interior empty ones kept and trailing empty ones dropped. */
  function Split(s: string): (r: seq<string>)
    ensures forall i :: 0 <= i < |r| ==> ',' !in r[i]
    ensures ',' !in s ==> r == [s]
    ensures ',' in s ==> |r| <= |Pieces(s)| && r == Pieces(s)[..|r|]
    ensures ',' in s ==> forall i :: |r| <= i < |Pieces(s)| ==> Pieces(s)[i] == ""
    ensures ',' in s ==> r == [] || r[|r| - 1] != ""
  {
    if ',' !in s then [s] else DropTrailingEmpty(Pieces(s))
  }

  /** Round trip: comma-free tokens whose last one is not empty, joined with
      commas, split back into the same tokens. */
  lemma SplitJoin(ts: seq<string>)
    requires |ts| >= 1 && ts[|ts| - 1] != ""
    requires forall i :: 0 <= i < |ts| ==> ',' !in ts[i]
    ensures Split(Join(ts)) == ts
  {
    PiecesJoin(ts);
    if |ts| >= 2 {
      assert Join(ts) == ts[0] + "," + Join(ts[1..]);
      assert Join(ts)[|ts[0]|] == ',';
      assert DropTrailingEmpty(ts) == ts;
    }
  }

  /** Without a comma, even the empty string is one token. */
  lemma SplitEmpty()
    ensures Split("") == [""]
  {
  }

  /** A lone comma splits into no tokens at all. */
  lemma SplitLoneComma()
    ensures Split(",") == []
  {
    assert ","[0] == ',';
    assert Pieces(",") == ["", ""] by {
      PiecesJoin(["", ""]);
      assert Join(["", ""]) == ",";
    }
  }

  /** A leading empty token is kept. */
  lemma SplitLeadingComma()
    ensures Split(",CREATE") == ["", "CREATE"]
  {
    assert ",CREATE"[0] == ',';
    PiecesJoin(["", "CREATE"]);
    assert Join(["", "CREATE"]) == ",CREATE";
  }

  /** Trailing empty tokens are dropped. */
  lemma SplitTrailingCommas()
    ensures Split("CREATE,,") == ["CREATE"]
  {
    assert "CREATE,,"[6] == ',';
    PiecesJoin(["CREATE", "", ""]);
    assert Join(["CREATE", "", ""]) == "CREATE,,";
  }

  /** Spaces after a comma stay part of the next token. */
  lemma SplitCommaSpace()
    ensures Split("CREATE, DELETE") == ["CREATE", " DELETE"]
  {
    var tokens := ["CREATE", " DELETE"];
    assert Join(tokens) == "CREATE, DELETE" by {
      assert tokens[1..] == [" DELETE"];
    }
    SplitJoin(tokens);
  }
}
