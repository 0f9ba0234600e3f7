/** The two std::istringstream operations the request parser relies on, over the
    characters still unread:
    - `strm >> word` skips leading white space, then takes characters up to the next white
      space or the end; reaching the end sets eofbit, so the NEXT extraction fails;
    - `std::getline(strm, line)` takes characters up to the next '\n' (consumed, not stored)
      or the end; it fails only when nothing at all is left.
    A failed stream makes every later extraction fail and yield the empty string. */
module IStream {

  /** isspace() in the "C" locale: space, \t, \n, \v, \f, \r. */
  predicate IsSpace(c: char)
  {
    c == ' ' || c == '\t' || c == '\n' || c as int == 11 || c as int == 12 || c == '\r'
  }

  predicate AllSpace(s: string)
  {
    forall i :: 0 <= i < |s| ==> IsSpace(s[i])
  }

  predicate NoSpace(s: string)
  {
    forall i :: 0 <= i < |s| ==> !IsSpace(s[i])
  }

  /** A string stream: the unread characters while its state is good, or failed. */
  datatype Stream = Good(rest: string) | Failed

  function Size(st: Stream): nat
  {
    if st.Good? then |st.rest| + 1 else 0
  }

  /** What an extraction stored, and the stream afterwards. */
  datatype Extracted = Extracted(text: string, next: Stream)

  /** The length of the leading run of white space. */
  function SpaceRun(s: string): (n: nat)
    ensures n <= |s| && AllSpace(s[..n])
    ensures n < |s| ==> !IsSpace(s[n])
  {
    if s == [] || !IsSpace(s[0]) then 0 else 1 + SpaceRun(s[1..])
  }

  /** The length of the leading run of non-white-space characters. */
  function WordRun(s: string): (n: nat)
    ensures n <= |s| && NoSpace(s[..n])
    ensures n < |s| ==> IsSpace(s[n])
  {
    if s == [] || IsSpace(s[0]) then 0 else 1 + WordRun(s[1..])
  }

  /** The length of the leading run of characters other than '\n'. */
  function LineRun(s: string): (n: nat)
    ensures n <= |s| && '\n' !in s[..n]
    ensures n < |s| ==> s[n] == '\n'
  {
    if s == [] || s[0] == '\n' then 0 else 1 + LineRun(s[1..])
  }

  /** `strm >> word` for a std::string `word`. */
  function ReadWord(st: Stream): (r: Extracted)
    ensures NoSpace(r.text)
    ensures r.text == [] <==> st.Failed? || AllSpace(st.rest)
    ensures r.text == [] ==> r.next == Failed
    ensures st.Good? ==> Size(r.next) < Size(st)
    ensures r.next.Good? ==> r.next.rest != [] && IsSpace(r.next.rest[0])
  {
    match st
    case Failed => Extracted([], Failed)
    case Good(s) =>
      var k := SpaceRun(s);
      var t := s[k..];
      if t == [] then
        assert s[..k] == s;
        Extracted([], Failed)
      else
        assert !AllSpace(s) by { assert !IsSpace(s[k]); }
        var n := WordRun(t);
        if n == |t| then
          assert t[..n] == t;
          Extracted(t, Failed)
        else Extracted(t[..n], Good(t[n..]))
  }

  /** `std::getline(strm, line)` with the default '\n' delimiter. */
  function ReadLine(st: Stream): (r: Extracted)
    ensures '\n' !in r.text
    ensures st.Failed? || st.rest == [] ==> r == Extracted([], Failed)
    ensures st.Good? && r.next.Good? ==> st.rest == r.text + "\n" + r.next.rest
    ensures st.Good? && st.rest != [] && r.next.Failed? ==> st.rest == r.text
    ensures st.Good? ==> Size(r.next) < Size(st)
  {
    match st
    case Failed => Extracted([], Failed)
    case Good(s) =>
      if s == [] then Extracted([], Failed)
      else
        var n := LineRun(s);
        if n == |s| then
          assert s[..n] == s;
          Extracted(s, Failed)
        else
          assert s == s[..n] + "\n" + s[n + 1..];
          Extracted(s[..n], Good(s[n + 1..]))
  }

  /** Every line successive getline calls return before the stream fails. */
  function Lines(st: Stream): (r: seq<string>)
    decreases Size(st)
  {
    if st.Failed? || st.rest == [] then []
    else
      var e := ReadLine(st);
      [e.text] + Lines(e.next)
  }

  /** Lines each terminated by '\n': the text a writer of `line << "\n"` produces. */
  function Join(ls: seq<string>): string
  {
    if ls == [] then [] else ls[0] + "\n" + Join(ls[1..])
  }

  predicate NoNewline(ls: seq<string>)
  {
    forall i :: 0 <= i < |ls| ==> '\n' !in ls[i]
  }

  lemma {:induction false} LineRunOf(a: string, b: string)
    requires '\n' !in a
    ensures LineRun(a + "\n" + b) == |a|
    decreases |a|
  {
    if a != [] {
      assert (a + "\n" + b)[1..] == a[1..] + "\n" + b;
      LineRunOf(a[1..], b);
    }
  }

  lemma LinesCons(a: string, b: string)
    requires '\n' !in a
    ensures Lines(Good(a + "\n" + b)) == [a] + Lines(Good(b))
  {
    var s := a + "\n" + b;
    LineRunOf(a, b);
    assert s[..|a|] == a && s[|a| + 1..] == b;
  }

  /** Reading back what was written line by line gives the same lines. */
  lemma {:induction false} LinesOfJoin(ls: seq<string>)
    requires NoNewline(ls)
    ensures Lines(Good(Join(ls))) == ls
  {
    if ls != [] {
      LinesCons(ls[0], Join(ls[1..]));
      LinesOfJoin(ls[1..]);
    }
  }

  // ---------------------------------------------------------------- words as a reference

  /** The white-space separated words of `s`, defined character by character. */
  function Tokens(s: string): (r: seq<string>)
    decreases |s|
    ensures r == [] <==> AllSpace(s)
  {
    if s == [] then []
    else if IsSpace(s[0]) then
      var r := Tokens(s[1..]);
      assert AllSpace(s) <==> AllSpace(s[1..]) by {
        if AllSpace(s[1..]) { forall i | 1 <= i < |s| ensures IsSpace(s[i]) { assert s[i] == s[1..][i - 1]; } }
      }
      r
    else
      var r := Tokens(s[1..]);
      if |s| == 1 || IsSpace(s[1]) then [[s[0]]] + r
      else [[s[0]] + r[0]] + r[1..]
  }

  lemma {:induction false} TokensSkipSpace(s: string, k: nat)
    requires k <= |s| && AllSpace(s[..k])
    ensures Tokens(s) == Tokens(s[k..])
    decreases k
  {
    if k > 0 {
      assert IsSpace(s[0]);
      assert s[1..][..k - 1] == s[1..k];
      assert s[1..][k - 1..] == s[k..];
      TokensSkipSpace(s[1..], k - 1);
    }
  }

  lemma {:induction false} TokensWord(t: string)
    requires t != [] && !IsSpace(t[0])
    ensures WordRun(t) > 0
    ensures Tokens(t) == [t[..WordRun(t)]] + Tokens(t[WordRun(t)..])
    decreases |t|
  {
    var t' := t[1..];
    if |t| == 1 || IsSpace(t[1]) {
      assert WordRun(t) == 1;
      assert t[..1] == [t[0]];
    } else {
      TokensWord(t');
      var n := WordRun(t');
      TokensInWord(t);
      assert WordRun(t) == n + 1;
      assert t[..n + 1] == [t[0]] + t'[..n];
      assert t[n + 1..] == t'[n..];
    }
  }

  lemma TokensInWord(t: string)
    requires |t| > 1 && !IsSpace(t[0]) && !IsSpace(t[1])
    ensures Tokens(t) == [[t[0]] + Tokens(t[1..])[0]] + Tokens(t[1..])[1..]
  {
  }

  /** One `>>` extraction takes exactly the next word: the words left afterwards are the rest. */
  lemma ReadWordTokens(s: string)
    ensures var e := ReadWord(Good(s));
      Tokens(s) == if e.text == [] then [] else [e.text] + (if e.next.Good? then Tokens(e.next.rest) else [])
  {
    var k := SpaceRun(s);
    TokensSkipSpace(s, k);
    var t := s[k..];
    if t != [] {
      TokensWord(t);
      var n := WordRun(t);
      if n == |t| {
        assert t[..n] == t && t[n..] == [];
      }
    }
  }

  /** Reading a word back: white space, then the word, then white space or the end. */
  lemma {:induction false} ReadWordOf(pre: string, w: string, post: string)
    requires AllSpace(pre) && w != [] && NoSpace(w)
    requires post == [] || IsSpace(post[0])
    ensures ReadWord(Good(pre + w + post)) == Extracted(w, if post == [] then Failed else Good(post))
  {
    var s := pre + w + post;
    SpaceRunOf(pre, w + post);
    assert s == pre + (w + post);
    assert s[|pre|..] == w + post;
    WordRunOf(w, post);
    assert (w + post)[..|w|] == w && (w + post)[|w|..] == post;
  }

  lemma {:induction false} SpaceRunOf(pre: string, t: string)
    requires AllSpace(pre) && t != [] && !IsSpace(t[0])
    ensures SpaceRun(pre + t) == |pre|
    decreases |pre|
  {
    if pre != [] {
      assert (pre + t)[1..] == pre[1..] + t;
      SpaceRunOf(pre[1..], t);
    }
  }

  lemma {:induction false} WordRunOf(w: string, post: string)
    requires NoSpace(w)
    requires post == [] || IsSpace(post[0])
    ensures WordRun(w + post) == |w|
    decreases |w|
  {
    if w != [] {
      assert (w + post)[1..] == w[1..] + post;
      WordRunOf(w[1..], post);
    } else {
      assert w + post == post;
    }
  }
}
