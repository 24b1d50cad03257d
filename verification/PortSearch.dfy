// getPort: which "listen" line of a configuration tree decides the port.
module PortSearch {
  import opened Wrappers
  import opened ConfigSyntax
  import opened FileIds
  import opened Paths

  const MAX_PORT := 65535

  predicate IsListen(s: Statement) {
    s.Line? && |s.tokens| == 2 && s.tokens[0] == "listen"
  }

  // The port a word names, or -1. `atoi` is the C library's, which is undefined beyond int.
  function PortIn(word: string, atoi: string -> int): int {
    var text := CStr(word);
    if IsDigits(text) && 0 <= atoi(text) <= MAX_PORT then atoi(text) else -1
  }

  // The first "listen" line among the statements themselves.
  function DirectListen(c: Config): Option<string> {
    if c == [] then None else if IsListen(c[0]) then Some(c[0].tokens[1]) else DirectListen(c[1..])
  }

  // A direct "listen" line decides, even when its port is not valid; otherwise the first block does
  // in which a port is found.
  function PortOf(c: Config, atoi: string -> int): int
    decreases c, 1
  {
    match DirectListen(c)
    case Some(word) => PortIn(word, atoi)
    case None => BlockPort(c, atoi)
  }

  function BlockPort(c: Config, atoi: string -> int): int
    decreases c, 0
  {
    if c == [] then -1
    else if c[0].Block? && PortOf(c[0].body, atoi) != -1 then PortOf(c[0].body, atoi)
    else BlockPort(c[1..], atoi)
  }

  // Statement i is the first "listen" line, and names the word.
  ghost predicate FirstListen(c: Config, word: string, i: nat) {
    i < |c| && c[i] == Line(["listen", word]) && forall j :: 0 <= j < i ==> !IsListen(c[j])
  }

  lemma {:induction false} DirectListenIsFirst(c: Config, word: string)
    ensures DirectListen(c) == Some(word) <==> exists i: nat :: FirstListen(c, word, i)
  {
    if c != [] {
      var rest := c[1..];
      DirectListenIsFirst(rest, word);
      assert IsListen(c[0]) ==> c[0] == Line(["listen", c[0].tokens[1]]);
      if IsListen(c[0]) {
        assert FirstListen(c, c[0].tokens[1], 0);
      } else {
        forall i: nat ensures FirstListen(c, word, i + 1) <==> FirstListen(rest, word, i) { ListenTail(c, word, i); }
        forall i: nat | FirstListen(c, word, i) ensures i > 0 && FirstListen(rest, word, i - 1) {
          assert FirstListen(c, word, (i - 1) + 1);
        }
      }
    }
  }

  lemma ListenTail(c: Config, word: string, i: nat)
    requires c != [] && !IsListen(c[0])
    ensures FirstListen(c, word, i + 1) <==> FirstListen(c[1..], word, i)
  {
    assert forall j :: 0 < j < |c| ==> c[j] == c[1..][j - 1];
    assert forall j :: 0 <= j < |c[1..]| ==> c[1..][j] == c[j + 1];
  }

  // ---- The answer, read off the lines alone ----

  // The "listen" lines not hidden by another one, in document order: at each level only the first
  // counts, and it hides every block beside it.
  function Visible(c: Config): seq<string>
    decreases c, 1
  {
    match DirectListen(c)
    case Some(word) => [word]
    case None => VisibleInBlocks(c)
  }

  function VisibleInBlocks(c: Config): seq<string>
    decreases c, 0
  {
    if c == [] then [] else (if c[0].Block? then Visible(c[0].body) else []) + VisibleInBlocks(c[1..])
  }

  // p is the port of the first word that names one, and -1 if none does.
  ghost predicate FirstPort(words: seq<string>, atoi: string -> int, p: int) {
    if p == -1 then forall i :: 0 <= i < |words| ==> PortIn(words[i], atoi) == -1
    else exists i :: 0 <= i < |words| && PortIn(words[i], atoi) == p
                     && forall j :: 0 <= j < i ==> PortIn(words[j], atoi) == -1
  }

  lemma FirstPortConcat(a: seq<string>, b: seq<string>, atoi: string -> int, p: int, q: int)
    requires FirstPort(a, atoi, p) && FirstPort(b, atoi, q)
    ensures FirstPort(a + b, atoi, if p != -1 then p else q)
  {
    if p != -1 {
      var i :| 0 <= i < |a| && PortIn(a[i], atoi) == p && forall j :: 0 <= j < i ==> PortIn(a[j], atoi) == -1;
      assert (a + b)[i] == a[i];
    } else if q != -1 {
      var i :| 0 <= i < |b| && PortIn(b[i], atoi) == q && forall j :: 0 <= j < i ==> PortIn(b[j], atoi) == -1;
      assert (a + b)[|a| + i] == b[i];
    }
  }

  // The answer is the first valid port among the visible lines, wherever the blocks nest.
  lemma {:induction false} PortIsFirstVisible(c: Config, atoi: string -> int)
    ensures FirstPort(Visible(c), atoi, PortOf(c, atoi)) && -1 <= PortOf(c, atoi) <= MAX_PORT
    decreases c, 1
  {
    match DirectListen(c)
    case Some(word) =>
      assert Visible(c)[0] == word;
    case None => BlockPortIsFirstVisible(c, atoi);
  }

  lemma {:induction false} BlockPortIsFirstVisible(c: Config, atoi: string -> int)
    ensures FirstPort(VisibleInBlocks(c), atoi, BlockPort(c, atoi)) && -1 <= BlockPort(c, atoi) <= MAX_PORT
    decreases c, 0
  {
    if c != [] {
      BlockPortIsFirstVisible(c[1..], atoi);
      if c[0].Block? {
        PortIsFirstVisible(c[0].body, atoi);
        FirstPortConcat(Visible(c[0].body), VisibleInBlocks(c[1..]), atoi,
                        PortOf(c[0].body, atoi), BlockPort(c[1..], atoi));
      } else {
        assert [] + VisibleInBlocks(c[1..]) == VisibleInBlocks(c[1..]);
      }
    }
  }
}
