/**
 * OpenShock firmware location: trimming the stable version text, offering the
 * PiShock-compatible boards of that release, and composing the download URL.
 * The two fetched texts and the board the user picks are inputs.
 */
module OpenShock {
  import opened Base

  const Scheme := "https:"
  const Domain := "firmware.openshock.org"
  /** `https://firmware.openshock.org/`, the root of every firmware file. */
  const Host := Scheme + "//" + Domain + "/"

  /** Index of the first occurrence of `c` in `s`. */
  function FirstIndex(s: string, c: char): (i: nat)
    requires c in s
    ensures i < |s| && s[i] == c && c !in s[..i]
  {
    if s[0] == c then 0 else 1 + FirstIndex(s[1..], c)
  }

  /**
   * `s.replace(c, "")` with a string pattern: only the first occurrence of
   * `c` is deleted, and a text without `c` is returned unchanged.
   */
  function RemoveFirst(s: string, c: char): (r: string)
    ensures c !in s ==> r == s
    ensures c in s ==> r == s[..FirstIndex(s, c)] + s[FirstIndex(s, c) + 1..]
  {
    if s == [] then []
    else if s[0] == c then
      assert FirstIndex(s, c) == 0;
      s[1..]
    else
      var tail := RemoveFirst(s[1..], c);
      RemoveFirstCons(s, c, tail);
      [s[0]] + tail
  }

  /** Keeping a first character that is not `c` in front of the tail's result. */
  lemma RemoveFirstCons(s: string, c: char, tail: string)
    requires s != [] && s[0] != c
    requires c !in s[1..] ==> tail == s[1..]
    requires c in s[1..] ==> tail == s[1..][..FirstIndex(s[1..], c)] + s[1..][FirstIndex(s[1..], c) + 1..]
    ensures c !in s ==> [s[0]] + tail == s
    ensures c in s ==> [s[0]] + tail == s[..FirstIndex(s, c)] + s[FirstIndex(s, c) + 1..]
  {
    assert s == [s[0]] + s[1..];
    if c in s[1..] {
      var k := FirstIndex(s[1..], c);
      assert FirstIndex(s, c) == k + 1;
      assert s[..k + 1] == [s[0]] + s[1..][..k];
      assert s[k + 2..] == s[1..][k + 1..];
    }
  }

  /**
   * The release name read from `version-stable.txt`: its first line feed
   * removed, the text kept as it is when it has none.
   */
  function TrimVersion(text: string): (v: string)
    ensures '\n' !in text ==> v == text
    ensures '\n' in text ==>
      && |v| == |text| - 1
      && v == text[..FirstIndex(text, '\n')] + text[FirstIndex(text, '\n') + 1..]
  {
    RemoveFirst(text, '\n')
  }

  /** Only the first line feed goes: a text with two keeps its second one. */
  lemma TrimVersionKeepsLaterLineFeeds(a: string, b: string)
    requires '\n' !in a
    ensures TrimVersion(a + "\n" + b) == a + b
  {
    var s := a + "\n" + b;
    assert s[|a|] == '\n' && s[..|a|] == a;
    assert FirstIndex(s, '\n') == |a|;
    assert s[|a| + 1..] == b;
  }

  /** The lines of `boards.txt`: none holds a line feed, and joined back they are the text. */
  function Boards(text: string): (lines: seq<string>)
    ensures |lines| >= 1 && Join(lines, '\n') == text
    ensures forall k :: 0 <= k < |lines| ==> '\n' !in lines[k]
  {
    Split(text, '\n')
  }

  /** A board the tool offers: its lower-cased name mentions `pishock`. */
  predicate IsPiShockBoard(name: string)
  {
    Contains(Lower(name), "pishock")
  }

  /** An entry of the board prompt. */
  datatype Choice = Choice(title: string, value: string)

  /** The offered choices: the PiShock boards, in list order, each titled by its own name. */
  function Choices(boards: seq<string>): (cs: seq<Choice>)
    ensures forall k :: 0 <= k < |cs| ==> cs[k].title == cs[k].value && IsPiShockBoard(cs[k].value) && cs[k].value in boards
    ensures forall b :: b in boards && IsPiShockBoard(b) ==> Choice(b, b) in cs
    ensures |cs| <= |boards|
  {
    if boards == [] then []
    else
      var rest := Choices(boards[1..]);
      (if IsPiShockBoard(boards[0]) then [Choice(boards[0], boards[0])] else []) + rest
  }

  /** Filtering keeps order: the choices of a concatenation are the concatenated choices. */
  lemma {:induction false} ChoicesAppend(a: seq<string>, b: seq<string>)
    ensures Choices(a + b) == Choices(a) + Choices(b)
  {
    if a != [] {
      assert (a + b)[1..] == a[1..] + b;
      ChoicesAppend(a[1..], b);
    } else {
      assert a + b == b;
    }
  }

  /**
   * The choices offered for the fetched `boards.txt` text: each is a whole
   * line of it naming a PiShock board, and every such line is offered.
   */
  function ChoicesFor(boardsText: string): (cs: seq<Choice>)
    ensures forall k :: 0 <= k < |cs| ==>
      cs[k].value in Boards(boardsText) && '\n' !in cs[k].value && IsPiShockBoard(cs[k].value)
    ensures forall b :: b in Boards(boardsText) && IsPiShockBoard(b) ==> Choice(b, b) in cs
  {
    Choices(Boards(boardsText))
  }

  /** `getOpenShockFirmwareURL`, from the fetched version text and the board the user picked. */
  function FirmwareUrl(versionText: string, board: string): (url: string)
    ensures Host <= url
    ensures |url| == |Host| + |TrimVersion(versionText)| + |board| + 14
  {
    Host + TrimVersion(versionText) + "/" + board + "/firmware.bin"
  }

  /** Six slash-free pieces joined by slashes split back into those pieces. */
  lemma SplitSix(a: string, b: string, c: string, d: string, e: string, f: string)
    requires '/' !in a && '/' !in b && '/' !in c && '/' !in d && '/' !in e && '/' !in f
    ensures Split(a + ['/'] + (b + ['/'] + (c + ['/'] + (d + ['/'] + (e + ['/'] + f)))), '/') == [a, b, c, d, e, f]
  {
    SplitNoSeparator(f, '/');
    SplitAfterPiece(e, '/', f);
    SplitAfterPiece(d, '/', e + ['/'] + f);
    SplitAfterPiece(c, '/', d + ['/'] + (e + ['/'] + f));
    SplitAfterPiece(b, '/', c + ['/'] + (d + ['/'] + (e + ['/'] + f)));
    SplitAfterPiece(a, '/', b + ['/'] + (c + ['/'] + (d + ['/'] + (e + ['/'] + f))));
  }

  /** How the URL text nests, piece by piece. */
  lemma UrlNesting(scheme: string, domain: string, version: string, board: string, file: string)
    ensures scheme + "//" + domain + "/" + version + "/" + board + (['/'] + file)
         == scheme + ['/'] + ("" + ['/'] + (domain + ['/'] + (version + ['/'] + (board + ['/'] + file))))
  {
  }

  /** The URL is a path of exactly six segments; release and board are recovered from it when they hold no slash. */
  lemma FirmwareUrlSegments(versionText: string, board: string)
    requires '/' !in TrimVersion(versionText) && '/' !in board
    ensures Split(FirmwareUrl(versionText, board), '/')
         == [Scheme, "", Domain, TrimVersion(versionText), board, "firmware.bin"]
  {
    var version := TrimVersion(versionText);
    var file := "firmware.bin";
    assert forall k :: 0 <= k < |Scheme| ==> Scheme[k] != '/';
    assert forall k :: 0 <= k < |Domain| ==> Domain[k] != '/';
    assert forall k :: 0 <= k < |file| ==> file[k] != '/';
    SplitSix(Scheme, "", Domain, version, board, file);
    assert "/firmware.bin" == ['/'] + file;
    UrlNesting(Scheme, Domain, version, board, file);
  }
}
