/**
 * A password's parts, how base_passwords glues them together, and password_parts,
 * which splits a password back into them by matching
 * `^((?:[A-Z][a-z]*)+)([0-9]?)([^a-zA-Z0-9]?)$`.
 * The character classes of that pattern are ASCII ranges, written out here.
 */
module Parts {
  import opened Wrappers

  predicate IsUpper(c: char) { 'A' <= c <= 'Z' }
  predicate IsLower(c: char) { 'a' <= c <= 'z' }
  predicate IsDigit(c: char) { '0' <= c <= '9' }
  predicate IsAlnum(c: char) { IsUpper(c) || IsLower(c) || IsDigit(c) }

  /** A word as `[A-Z][a-z]*` sees it. */
  predicate IsWord(w: string)
  {
    |w| >= 1 && IsUpper(w[0]) && forall i :: 1 <= i < |w| ==> IsLower(w[i])
  }

  /**
   * The words, the numeral and the special character of a password.
   * password_parts returns "" where this model has None.
   */
  datatype Parts = Parts(words: seq<string>, numeral: Option<char>, special: Option<char>)

  /** The shape password_parts accepts: one or more words, an optional digit, an optional non-alphanumeric. */
  predicate WellFormed(p: Parts)
  {
    |p.words| >= 1 &&
    (forall i :: 0 <= i < |p.words| ==> IsWord(p.words[i])) &&
    (p.numeral.Some? ==> IsDigit(p.numeral.value)) &&
    (p.special.Some? ==> !IsAlnum(p.special.value))
  }

  /** ''.join(words) */
  function Join(ws: seq<string>): (s: string)
    ensures |ws| == 1 ==> s == ws[0]
  {
    if ws == [] then [] else ws[0] + Join(ws[1..])
  }

  function Chars(o: Option<char>): string
  {
    if o.Some? then [o.value] else []
  }

  /** The words, then the numeral, then the special character, with no separators. */
  function Assemble(p: Parts): string
  {
    Join(p.words) + Chars(p.numeral) + Chars(p.special)
  }

  datatype FormatError = PatternMismatch

  // ---------------------------------------------------------------------------
  // The scanner

  /** The length of the longest all-lowercase prefix: `[a-z]*`. */
  function LowerRun(s: string): (n: nat)
    ensures n <= |s|
    ensures forall i :: 0 <= i < n ==> IsLower(s[i])
    ensures n < |s| ==> !IsLower(s[n])
  {
    if s != [] && IsLower(s[0]) then 1 + LowerRun(s[1..]) else 0
  }

  /**
   * Greedy `(?:[A-Z][a-z]*)*` from the start of s, split into its words as re.findall does;
   * returns the words and the rest of s.
   */
  function ScanWords(s: string): (seq<string>, string)
    decreases |s|
  {
    if s != [] && IsUpper(s[0]) then
      var n := 1 + LowerRun(s[1..]);
      var r := ScanWords(s[n..]);
      ([s[..n]] + r.0, r.1)
    else ([], s)
  }

  /** The scanner splits s, losing nothing: its words joined, then its rest, give back s. */
  lemma {:induction false} ScanWordsJoin(s: string)
    ensures Join(ScanWords(s).0) + ScanWords(s).1 == s
    decreases |s|
  {
    if s != [] && IsUpper(s[0]) {
      var n := 1 + LowerRun(s[1..]);
      var r := ScanWords(s[n..]);
      var w := s[..n];
      LeadingWord(s, n);
      ScanWordsJoin(s[n..]);
      calc {
        Join(ScanWords(s).0) + ScanWords(s).1;
        Join([w] + r.0) + r.1;
        { JoinCons(w, r.0); }
        (w + Join(r.0)) + r.1;
        { AppendAssoc(w, Join(r.0), r.1); }
        w + s[n..];
      }
    }
  }

  /** Every word the scanner yields is a capital followed by lowercase letters. */
  lemma {:induction false} ScanWordsWords(s: string)
    ensures forall i :: 0 <= i < |ScanWords(s).0| ==> IsWord(ScanWords(s).0[i])
    decreases |s|
  {
    if s != [] && IsUpper(s[0]) {
      var n := 1 + LowerRun(s[1..]);
      var r := ScanWords(s[n..]);
      LeadingWord(s, n);
      ScanWordsWords(s[n..]);
      assert forall i :: 1 <= i < |r.0| + 1 ==> ([s[..n]] + r.0)[i] == r.0[i - 1];
    }
  }

  /**
   * The scanner stops at the first character that cannot continue the pattern: the rest does
   * not start with a capital, and after at least one word not with a lowercase letter either.
   */
  lemma {:induction false} ScanWordsRest(s: string)
    ensures var r := ScanWords(s);
            (r.1 != [] ==> !IsUpper(r.1[0])) && (r.0 != [] && r.1 != [] ==> !IsLower(r.1[0]))
    decreases |s|
  {
    if s != [] && IsUpper(s[0]) {
      var n := 1 + LowerRun(s[1..]);
      LeadingWord(s, n);
      ScanWordsRest(s[n..]);
    }
  }

  lemma LeadingWord(s: string, n: nat)
    requires s != [] && IsUpper(s[0]) && n == 1 + LowerRun(s[1..])
    ensures n <= |s| && IsWord(s[..n]) && s[..n] + s[n..] == s
    ensures n < |s| ==> !IsLower(s[n])
  {
    assert forall i :: 1 <= i < n ==> s[..n][i] == s[1..][i - 1];
  }

  lemma AppendAssoc<T>(a: seq<T>, b: seq<T>, c: seq<T>)
    ensures (a + b) + c == a + (b + c)
  {
  }

  lemma JoinCons(w: string, ws: seq<string>)
    ensures Join([w] + ws) == w + Join(ws)
  {
    assert ([w] + ws)[1..] == ws;
  }

  /** `([0-9]?)`: an optional leading digit and the rest. */
  function ScanNumeral(s: string): (r: (Option<char>, string))
    ensures Chars(r.0) + r.1 == s
    ensures r.0.Some? <==> s != [] && IsDigit(s[0])
  {
    if s != [] && IsDigit(s[0]) then (Some(s[0]), s[1..]) else (None, s)
  }

  /**
   * password_parts with an end anchor that matches only at the end of the string:
   * the definition used throughout the model.
   */
  function PasswordParts(password: string): Result<Parts, FormatError>
  {
    var (ws, rest) := ScanWords(password);
    var (num, tail) := ScanNumeral(rest);
    if ws == [] then Err(PatternMismatch)
    else if tail == [] then Ok(Parts(ws, num, None))
    else if |tail| == 1 && !IsAlnum(tail[0]) then Ok(Parts(ws, num, Some(tail[0])))
    else Err(PatternMismatch)
  }

  /**
   * password_parts as written: Python's `$` also matches just before a final "\n", and the
   * greedy `([^a-zA-Z0-9]?)` is tried first.
   */
  function PasswordPartsAsWritten(password: string): Result<Parts, FormatError>
  {
    var (ws, rest) := ScanWords(password);
    var (num, tail) := ScanNumeral(rest);
    if ws == [] then Err(PatternMismatch)
    else if tail != [] && !IsAlnum(tail[0]) && (tail[1..] == [] || tail[1..] == "\n") then
      Ok(Parts(ws, num, Some(tail[0])))
    else if tail == [] then Ok(Parts(ws, num, None))
    else Err(PatternMismatch)
  }

  // ---------------------------------------------------------------------------
  // Round trip

  lemma {:induction false} LowerRunOf(a: string, b: string)
    requires forall i :: 0 <= i < |a| ==> IsLower(a[i])
    requires b == [] || !IsLower(b[0])
    ensures LowerRun(a + b) == |a|
  {
    if a == [] {
      assert a + b == b;
    } else {
      assert (a + b)[1..] == a[1..] + b;
      LowerRunOf(a[1..], b);
    }
  }

  /** Scanning the concatenation of words followed by a non-letter recovers the words. */
  lemma {:induction false} ScanJoin(ws: seq<string>, t: string)
    requires forall i :: 0 <= i < |ws| ==> IsWord(ws[i])
    requires t == [] || (!IsUpper(t[0]) && !IsLower(t[0]))
    ensures ScanWords(Join(ws) + t) == (ws, t)
  {
    if ws == [] {
      assert Join(ws) + t == t;
    } else {
      var w, rest := ws[0], ws[1..];
      var after := Join(rest) + t;
      assert Join(ws) + t == w + after by { JoinCons(w, rest); assert [w] + rest == ws; }
      assert IsWord(w) && forall i :: 0 <= i < |rest| ==> IsWord(rest[i]) by {
        assert forall i :: 0 <= i < |rest| ==> rest[i] == ws[i + 1];
      }
      NotLowerAfterWords(rest, t);
      ScanWordThen(w, after);
      ScanJoin(rest, t);
      assert [w] + rest == ws;
    }
  }

  /** The scanner reads a whole word off the front of a string whose next letter is not lowercase. */
  lemma ScanWordThen(w: string, after: string)
    requires IsWord(w)
    requires after == [] || !IsLower(after[0])
    ensures ScanWords(w + after) == ([w] + ScanWords(after).0, ScanWords(after).1)
  {
    var s := w + after;
    assert s[0] == w[0];
    assert |w| == 1 + LowerRun(s[1..]) by {
      assert s[1..] == w[1..] + after;
      LowerRunOf(w[1..], after);
    }
    assert s[..|w|] == w && s[|w|..] == after;
    ScanWordsStep(s);
  }

  /** One step of the scanner: a capital letter starts a word that runs over the lowercase letters after it. */
  lemma ScanWordsStep(s: string)
    requires s != [] && IsUpper(s[0])
    ensures var n := 1 + LowerRun(s[1..]);
            n <= |s| && ScanWords(s) == ([s[..n]] + ScanWords(s[n..]).0, ScanWords(s[n..]).1)
  {
  }

  lemma NotLowerAfterWords(ws: seq<string>, t: string)
    requires forall i :: 0 <= i < |ws| ==> IsWord(ws[i])
    requires t == [] || (!IsUpper(t[0]) && !IsLower(t[0]))
    ensures Join(ws) + t == [] || !IsLower((Join(ws) + t)[0])
  {
    if ws != [] {
      JoinCons(ws[0], ws[1..]);
      assert [ws[0]] + ws[1..] == ws;
      assert (Join(ws) + t)[0] == ws[0][0];
    }
  }

  /** A well-formed password: parsing its assembly gives back exactly its parts. */
  lemma ParseAssembled(p: Parts)
    requires WellFormed(p)
    ensures PasswordParts(Assemble(p)) == Ok(p)
  {
    var t := Chars(p.numeral) + Chars(p.special);
    assert Assemble(p) == Join(p.words) + t;
    ScanJoin(p.words, t);
    if p.numeral.Some? {
      assert t[1..] == Chars(p.special);
    }
  }

  /** Whatever parses is well formed and is the assembly of its parts. */
  lemma ParsedAssembles(s: string)
    requires PasswordParts(s).Ok?
    ensures WellFormed(PasswordParts(s).value)
    ensures Assemble(PasswordParts(s).value) == s
  {
    var (ws, rest) := ScanWords(s);
    ScanWordsJoin(s);
    ScanWordsWords(s);
    ScanWordsRest(s);
    var (num, tail) := ScanNumeral(rest);
    if tail != [] {
      assert tail == Chars(Some(tail[0]));
    }
  }

  /**
   * password_parts accepts exactly the assemblies of well-formed parts and returns those parts;
   * every other string is an error.
   */
  lemma PasswordPartsRoundTrip(s: string, p: Parts)
    ensures PasswordParts(s) == Ok(p) <==> WellFormed(p) && Assemble(p) == s
  {
    if PasswordParts(s) == Ok(p) {
      ParsedAssembles(s);
    }
    if WellFormed(p) && Assemble(p) == s {
      ParseAssembled(p);
    }
  }

  /** On every well-formed password the code as written gives the same parts. */
  lemma AsWrittenAgreesOnAssembled(p: Parts)
    requires WellFormed(p)
    ensures PasswordPartsAsWritten(Assemble(p)) == Ok(p)
  {
    var t := Chars(p.numeral) + Chars(p.special);
    assert Assemble(p) == Join(p.words) + t;
    ScanJoin(p.words, t);
    if p.numeral.Some? {
      assert t[1..] == Chars(p.special);
    }
  }

  /**
   * The code as written accepts "Apple!\n", which no generated password can be, and drops
   * the newline: the parts it returns assemble to "Apple!".
   */
  lemma TrailingNewlineAccepted()
    ensures PasswordPartsAsWritten("Apple!\n") == Ok(Parts(["Apple"], None, Some('!')))
    ensures Assemble(Parts(["Apple"], None, Some('!'))) != "Apple!\n"
    ensures PasswordParts("Apple!\n") == Err(PatternMismatch)
  {
    var s := "Apple!\n";
    assert IsWord("Apple");
    assert Join(["Apple"]) + "!\n" == s;
    ScanJoin(["Apple"], "!\n");
    assert ScanNumeral("!\n") == (None, "!\n");
    assert "!\n"[1..] == "\n";
    assert Assemble(Parts(["Apple"], None, Some('!'))) == "Apple!";
  }
}
