/**
 * gen_alpha_passwords and base_passwords over an explicit, finite supply of random draws,
 * and the `sample_size` candidates main takes from them with islice.
 */
module Generation {
  import opened Wrappers
  import opened Filtering
  import opened Parts

  /**
   * What secrets.choice returns, in order: the shared word stream of gen_alpha_passwords,
   * the digit stream and the special-character stream of base_passwords.
   */
  datatype Draws = Draws(words: seq<string>, digits: seq<char>, specials: seq<char>)

  /** The draws are ones the three random streams can produce. */
  predicate DrawsFrom(d: Draws, wordSet: seq<string>, specialChars: string)
  {
    (forall i :: 0 <= i < |d.words| ==> d.words[i] in wordSet) &&
    (forall i :: 0 <= i < |d.digits| ==> IsDigit(d.digits[i])) &&
    (forall i :: 0 <= i < |d.specials| ==> d.specials[i] in specialChars)
  }

  // ---------------------------------------------------------------------------
  // gen_alpha_passwords: islice(non_repeating(words), word_count) on a shared stream

  /**
   * Continue reading the word stream at i, having collected acc so far; gives the words and
   * the position after the last draw used, or None when the stream runs dry first.
   */
  function StemFrom(s: seq<string>, i: nat, k: nat, acc: seq<string>): (r: Option<(seq<string>, nat)>)
    requires i <= |s| && |acc| <= k
    ensures r.Some? ==> i <= r.value.1 <= |s| && |r.value.0| == k
    decreases |s| - i
  {
    if |acc| == k then Some((acc, i))
    else if i == |s| then None
    else StemFrom(s, i + 1, k, if s[i] in acc then acc else acc + [s[i]])
  }

  /** The next alpha password's words, drawn from position pos of the word stream. */
  function Stem(s: seq<string>, pos: nat, k: nat): (r: Option<(seq<string>, nat)>)
    requires pos <= |s|
    ensures r.Some? ==> pos <= r.value.1 <= |s| && |r.value.0| == k
  {
    StemFrom(s, pos, k, [])
  }

  /** One turn of the `while True` loop of gen_alpha_passwords, with the `seen` set of non_repeating. */
  method TakeDistinct(s: seq<string>, pos: nat, k: nat) returns (r: Option<(seq<string>, nat)>)
    requires pos <= |s|
    ensures r == Stem(s, pos, k)
  {
    var seen: set<string> := {};
    var words: seq<string> := [];
    var i := pos;
    while |words| < k
      invariant pos <= i <= |s| && |words| <= k
      invariant StemFrom(s, i, k, words) == Stem(s, pos, k)
      invariant forall w :: w in seen <==> w in words
      decreases |s| - i
    {
      if i == |s| {
        return None;
      }
      if s[i] !in seen {
        seen := seen + {s[i]};
        words := words + [s[i]];
      }
      i := i + 1;
    }
    return Some((words, i));
  }

  /** One draw of StemFrom keeps its accumulator the distinct words drawn so far. */
  lemma StemFromStep(s: seq<string>, pos: nat, i: nat, k: nat, acc: seq<string>)
    requires pos <= i < |s| && |acc| < k
    requires acc == Unique(s[pos..i])
    requires forall j :: pos <= j < i ==> |Unique(s[pos..j])| < k
    ensures (if s[i] in acc then acc else acc + [s[i]]) == Unique(s[pos..i + 1])
    ensures forall j :: pos <= j < i + 1 ==> |Unique(s[pos..j])| < k
  {
    var xs := s[pos..i];
    assert s[pos..i + 1] == xs + [s[i]];
    UniqueStep(xs, s[i]);
    forall j | pos <= j < i + 1 ensures |Unique(s[pos..j])| < k {
      if j == i { assert s[pos..j] == xs; }
    }
  }

  /** Once k distinct words are collected, the stream from pos holds at least k distinct words. */
  lemma StemFromDone(s: seq<string>, pos: nat, i: nat, k: nat, acc: seq<string>)
    requires pos <= i <= |s| && |acc| == k
    requires acc == Unique(s[pos..i])
    ensures |Unique(s[pos..])| >= k
  {
    UniquePrefix(s[pos..], i - pos);
    assert s[pos..][..i - pos] == s[pos..i];
  }

  lemma {:induction false} StemFromSpec(s: seq<string>, pos: nat, i: nat, k: nat, acc: seq<string>)
    requires pos <= i <= |s| && |acc| <= k
    requires acc == Unique(s[pos..i])
    requires forall j :: pos <= j < i ==> |Unique(s[pos..j])| < k
    ensures StemFrom(s, i, k, acc).None? <==> |Unique(s[pos..])| < k
    ensures StemFrom(s, i, k, acc).Some? ==>
              StemFrom(s, i, k, acc).value.0 == Unique(s[pos..StemFrom(s, i, k, acc).value.1]) &&
              forall j :: pos <= j < StemFrom(s, i, k, acc).value.1 ==> |Unique(s[pos..j])| < k
    decreases |s| - i
  {
    if |acc| == k {
      StemFromDone(s, pos, i, k, acc);
    } else if i == |s| {
      assert s[pos..] == s[pos..i];
    } else {
      var acc' := if s[i] in acc then acc else acc + [s[i]];
      StemFromStep(s, pos, i, k, acc);
      StemFromSpec(s, pos, i + 1, k, acc');
      assert StemFrom(s, i, k, acc) == StemFrom(s, i + 1, k, acc');
    }
  }

  /**
   * The words of an alpha password are the first k distinct words of the stream from pos, in
   * draw order, and the stream is read no further than the draw that completes them; the
   * stream yields no password exactly when it holds fewer than k distinct words.
   */
  lemma StemSpec(s: seq<string>, pos: nat, k: nat)
    requires pos <= |s|
    ensures Stem(s, pos, k).None? <==> |Unique(s[pos..])| < k
    ensures Stem(s, pos, k).Some? ==>
              var (ws, m) := Stem(s, pos, k).value;
              ws == Unique(s[pos..m]) && |ws| == k &&
              forall j :: pos <= j < m ==> |Unique(s[pos..j])| < k
  {
    assert s[pos..pos] == [];
    StemFromSpec(s, pos, pos, k, []);
  }

  /** The words of an alpha password are pairwise distinct and each is a draw of the stream. */
  lemma StemWords(s: seq<string>, pos: nat, k: nat)
    requires pos <= |s| && Stem(s, pos, k).Some?
    ensures var (ws, m) := Stem(s, pos, k).value;
            NoDuplicates(ws) && forall i :: 0 <= i < |ws| ==> ws[i] in s[pos..m]
  {
    StemSpec(s, pos, k);
    var (ws, m) := Stem(s, pos, k).value;
    UniqueNoDuplicates(s[pos..m]);
    forall i | 0 <= i < |ws| ensures ws[i] in s[pos..m] {
      UniqueMembers(s[pos..m], ws[i]);
    }
  }

  /**
   * A stream of words from a set with fewer than k distinct words never completes an alpha
   * password (gen_alpha_passwords then loops forever).
   */
  lemma StemNeedsEnoughWords(s: seq<string>, pos: nat, k: nat, wordSet: seq<string>)
    requires pos <= |s| && forall i :: 0 <= i < |s| ==> s[i] in wordSet
    requires |set w | w in wordSet| < k
    ensures Stem(s, pos, k).None?
  {
    UniqueBounded(s[pos..], set w | w in wordSet);
    StemSpec(s, pos, k);
  }

  // ---------------------------------------------------------------------------
  // base_passwords: zip the alpha passwords with the optional digit and special streams

  /**
   * The parts of the j-th candidate when the word stream stands at wpos, and the word stream's
   * new position; None when a stream it needs has run dry.
   */
  function NextParts(d: Draws, k: nat, appendNumeral: bool, specialChars: string, wpos: nat, j: nat)
    : (r: Option<(Parts, nat)>)
    requires wpos <= |d.words|
    ensures r.Some? ==> wpos <= r.value.1 <= |d.words|
  {
    match Stem(d.words, wpos, k)
    case None => None
    case Some((ws, next)) =>
      if (appendNumeral && j >= |d.digits|) || (specialChars != [] && j >= |d.specials|) then None
      else
        Some((Parts(ws,
                    if appendNumeral then Some(d.digits[j]) else None,
                    if specialChars != [] then Some(d.specials[j]) else None),
              next))
  }

  /** Drawing one candidate: consume the word stream, then one digit, then one special character. */
  method NextCandidate(d: Draws, k: nat, appendNumeral: bool, specialChars: string, wpos: nat, j: nat)
    returns (r: Option<(Parts, nat)>)
    requires wpos <= |d.words|
    ensures r == NextParts(d, k, appendNumeral, specialChars, wpos, j)
  {
    var stem := TakeDistinct(d.words, wpos, k);
    if stem.None? {
      return None;
    }
    var (ws, next) := stem.value;
    if (appendNumeral && j >= |d.digits|) || (specialChars != [] && j >= |d.specials|) {
      return None;
    }
    var numeral := if appendNumeral then Some(d.digits[j]) else None;
    var special := if specialChars != [] then Some(d.specials[j]) else None;
    return Some((Parts(ws, numeral, special), next));
  }

  /** islice(base_passwords(...), n) from the given stream positions, as parts. */
  function SampleFrom(d: Draws, k: nat, appendNumeral: bool, specialChars: string, wpos: nat, j: nat, n: nat)
    : (r: seq<Parts>)
    requires wpos <= |d.words|
    ensures |r| <= n
    decreases n
  {
    if n == 0 then []
    else
      match NextParts(d, k, appendNumeral, specialChars, wpos, j)
      case None => []
      case Some((p, next)) => [p] + SampleFrom(d, k, appendNumeral, specialChars, next, j + 1, n - 1)
  }

  /** The candidate strings: ''.join of each zipped tuple. */
  function Passwords(ps: seq<Parts>): (r: seq<string>)
    ensures |r| == |ps| && forall i :: 0 <= i < |ps| ==> r[i] == Assemble(ps[i])
  {
    seq(|ps|, i requires 0 <= i < |ps| => Assemble(ps[i]))
  }

  lemma PasswordsCons(p: Parts, ps: seq<Parts>)
    ensures Passwords([p] + ps) == [Assemble(p)] + Passwords(ps)
  {
    var l, r := Passwords([p] + ps), [Assemble(p)] + Passwords(ps);
    assert |l| == |r|;
    forall i | 0 <= i < |l| ensures l[i] == r[i] {
      if i > 0 { assert ([p] + ps)[i] == ps[i - 1]; }
    }
  }

  /**
   * A candidate of word_count pairwise-distinct words followed by a digit exactly when
   * append_numeral and by a special character exactly when special_chars is non-empty;
   * with genuine draws, the words come from the word set, the digit is a digit and the
   * character comes from special_chars.
   */
  predicate CandidateShape(p: Parts, d: Draws, k: nat, appendNumeral: bool, specialChars: string, wordSet: seq<string>)
  {
    |p.words| == k && NoDuplicates(p.words) &&
    (p.numeral.Some? <==> appendNumeral) && (p.special.Some? <==> specialChars != []) &&
    (DrawsFrom(d, wordSet, specialChars) ==>
       (forall i :: 0 <= i < |p.words| ==> p.words[i] in wordSet) &&
       (p.numeral.Some? ==> IsDigit(p.numeral.value)) &&
       (p.special.Some? ==> p.special.value in specialChars))
  }

  /** The next candidate has the shape base_passwords gives it. */
  lemma NextPartsShape(d: Draws, k: nat, appendNumeral: bool, specialChars: string,
                       wpos: nat, j: nat, wordSet: seq<string>)
    requires wpos <= |d.words| && NextParts(d, k, appendNumeral, specialChars, wpos, j).Some?
    ensures CandidateShape(NextParts(d, k, appendNumeral, specialChars, wpos, j).value.0,
                           d, k, appendNumeral, specialChars, wordSet)
  {
    StemWords(d.words, wpos, k);
    var ws := Stem(d.words, wpos, k).value.0;
    var m := Stem(d.words, wpos, k).value.1;
    if DrawsFrom(d, wordSet, specialChars) {
      forall i | 0 <= i < |ws| ensures ws[i] in wordSet {
        var t :| 0 <= t < |d.words[wpos..m]| && d.words[wpos..m][t] == ws[i];
        assert d.words[wpos + t] == ws[i];
      }
    }
  }

  /** Every candidate of the sample has that shape. */
  lemma {:induction false} SampleShape(d: Draws, k: nat, appendNumeral: bool, specialChars: string,
                                       wpos: nat, j: nat, n: nat, wordSet: seq<string>)
    requires wpos <= |d.words|
    ensures forall p :: p in SampleFrom(d, k, appendNumeral, specialChars, wpos, j, n) ==>
              CandidateShape(p, d, k, appendNumeral, specialChars, wordSet)
    decreases n
  {
    var next := NextParts(d, k, appendNumeral, specialChars, wpos, j);
    if n > 0 && next.Some? {
      var p, np := next.value.0, next.value.1;
      var rest := SampleFrom(d, k, appendNumeral, specialChars, np, j + 1, n - 1);
      assert SampleFrom(d, k, appendNumeral, specialChars, wpos, j, n) == [p] + rest;
      NextPartsShape(d, k, appendNumeral, specialChars, wpos, j, wordSet);
      SampleShape(d, k, appendNumeral, specialChars, np, j + 1, n - 1, wordSet);
    }
  }

  /** From a set with fewer than word_count distinct words the sample holds no candidate. */
  lemma SampleNeedsEnoughWords(d: Draws, k: nat, appendNumeral: bool, specialChars: string,
                               wpos: nat, j: nat, n: nat, wordSet: seq<string>)
    requires wpos <= |d.words| && DrawsFrom(d, wordSet, specialChars)
    requires |set w | w in wordSet| < k
    ensures SampleFrom(d, k, appendNumeral, specialChars, wpos, j, n) == []
  {
    if n > 0 {
      StemNeedsEnoughWords(d.words, wpos, k, wordSet);
    }
  }

  /**
   * With capitalised words and special characters that are not alphanumeric, password_parts
   * recovers exactly the parts each candidate was built from.
   */
  lemma SampleParsesBack(d: Draws, k: nat, appendNumeral: bool, specialChars: string,
                         wpos: nat, j: nat, n: nat, wordSet: seq<string>)
    requires wpos <= |d.words| && k >= 1 && DrawsFrom(d, wordSet, specialChars)
    requires forall i :: 0 <= i < |wordSet| ==> IsWord(wordSet[i])
    requires forall i :: 0 <= i < |specialChars| ==> !IsAlnum(specialChars[i])
    ensures forall p :: p in SampleFrom(d, k, appendNumeral, specialChars, wpos, j, n) ==>
              PasswordParts(Assemble(p)) == Ok(p)
  {
    SampleShape(d, k, appendNumeral, specialChars, wpos, j, n, wordSet);
    forall p | p in SampleFrom(d, k, appendNumeral, specialChars, wpos, j, n)
      ensures PasswordParts(Assemble(p)) == Ok(p)
    {
      assert forall i :: 0 <= i < |p.words| ==> IsWord(p.words[i]);
      ParseAssembled(p);
    }
  }

  /** Words of length lo..hi make a joined stem of length between |ws|·lo and |ws|·hi. */
  lemma {:induction false} JoinLength(ws: seq<string>, lo: int, hi: int)
    requires forall i :: 0 <= i < |ws| ==> lo <= |ws[i]| <= hi
    ensures |ws| * lo <= |Join(ws)| <= |ws| * hi
  {
    if ws != [] {
      var m := |ws| - 1;
      JoinLength(ws[1..], lo, hi);
      assert |Join(ws)| == |ws[0]| + |Join(ws[1..])|;
      MulSucc(m, lo);
      MulSucc(m, hi);
    }
  }

  lemma MulSucc(m: int, x: int)
    ensures (m + 1) * x == m * x + x
  {
  }

  /**
   * A candidate's length: its words' lengths plus one for the digit and one for the
   * special character, so with words of length lo..hi it lies between
   * k·lo + extra and k·hi + extra.
   */
  lemma CandidateLength(p: Parts, lo: int, hi: int)
    requires forall i :: 0 <= i < |p.words| ==> lo <= |p.words[i]| <= hi
    ensures var extra := (if p.numeral.Some? then 1 else 0) + (if p.special.Some? then 1 else 0);
            |p.words| * lo + extra <= |Assemble(p)| <= |p.words| * hi + extra
  {
    JoinLength(p.words, lo, hi);
  }
}
