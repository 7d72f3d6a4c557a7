/** The whitelist option as a list of texts between commas: blanks around an entry do not matter,
    blank entries are skipped, and one bad entry refuses the whole list. */
module WhitelistCsv {
  import opened Basics
  import opened Cidr
  import opened Whitelist

  /** What stands between two commas: an entry that starts and ends with no blank, or nothing, with
      blanks on both sides. */
  datatype Piece = Piece(lead: string, core: string, tail: string) {
    predicate Valid() {
      && IsBlankText(lead) && IsBlankText(tail) && ',' !in core
      && (core != "" ==> !IsBlank(core[0]) && !IsBlank(core[|core| - 1]))
    }

    function Text(): string { lead + (core + tail) }
  }

  function Texts(pieces: seq<Piece>): seq<string> {
    if pieces == [] then [] else [pieces[0].Text()] + Texts(pieces[1..])
  }

  /** The entries that are not blank, in order. */
  function Cores(pieces: seq<Piece>): seq<string> {
    if pieces == [] then []
    else if pieces[0].core == "" then Cores(pieces[1..])
    else [pieces[0].core] + Cores(pieces[1..])
  }

  predicate AllValid(pieces: seq<Piece>) { forall i :: 0 <= i < |pieces| ==> pieces[i].Valid() }

  // -------------------------------------------------------------------------
  // Trimming
  // -------------------------------------------------------------------------

  lemma BlankFirst(c: char, s: string)
    requires IsBlank(c)
    ensures Trim([c] + s) == Trim(s)
  {
    assert ([c] + s)[1..] == s;
  }

  lemma BlankLast(s: string, c: char)
    requires IsBlank(c) && s != "" && !IsBlank(s[0])
    ensures Trim(s + [c]) == Trim(s)
  {
    assert (s + [c])[..|s|] == s;
  }

  lemma {:induction false} TrimBlanks(s: string)
    requires IsBlankText(s)
    ensures Trim(s) == ""
  {
    if s != "" {
      TrimBlanks(s[1..]);
    }
  }

  lemma {:induction false} TrimTail(core: string, tail: string)
    requires core != "" && !IsBlank(core[0]) && !IsBlank(core[|core| - 1]) && IsBlankText(tail)
    ensures Trim(core + tail) == core
    decreases |tail|
  {
    if tail == "" {
      assert core + tail == core;
    } else {
      var front, last := tail[..|tail| - 1], tail[|tail| - 1];
      TrimTail(core, front);
      Regroup(core, front, [last]);
      assert tail == front + [last];
      BlankLast(core + front, last);
    }
  }

  lemma {:induction false} TrimLead(lead: string, rest: string)
    requires IsBlankText(lead)
    ensures Trim(lead + rest) == Trim(rest)
    decreases |lead|
  {
    if lead == "" {
      assert lead + rest == rest;
    } else {
      FirstThen(lead, rest);
      BlankFirst(lead[0], lead[1..] + rest);
      TrimLead(lead[1..], rest);
    }
  }

  lemma TrimPiece(p: Piece)
    requires p.Valid()
    ensures Trim(p.Text()) == p.core
  {
    TrimLead(p.lead, p.core + p.tail);
    if p.core == "" {
      assert p.core + p.tail == p.tail;
      TrimBlanks(p.tail);
    } else {
      TrimTail(p.core, p.tail);
    }
  }

  /** Every text without commas is a piece. */
  lemma {:induction false} PieceOf(s: string) returns (p: Piece)
    requires ',' !in s
    ensures p.Valid() && p.Text() == s
    decreases |s|
  {
    if s == "" || (!IsBlank(s[0]) && !IsBlank(s[|s| - 1])) {
      p := Piece("", s, "");
    } else if IsBlank(s[0]) {
      var q := PieceOf(s[1..]);
      p := Piece([s[0]] + q.lead, q.core, q.tail);
      HeadTail(s);
      Regroup([s[0]], q.lead, q.core + q.tail);
    } else {
      var n := |s| - 1;
      var q := PieceOf(s[..n]);
      p := Piece(q.lead, q.core, q.tail + [s[n]]);
      assert s == s[..n] + [s[n]];
      Regroup(q.core, q.tail, [s[n]]);
      Regroup(q.lead, q.core + q.tail, [s[n]]);
    }
  }

  // -------------------------------------------------------------------------
  // Splitting
  // -------------------------------------------------------------------------

  lemma {:induction false} SplitJoined(texts: seq<string>)
    requires texts != [] && forall i :: 0 <= i < |texts| ==> ',' !in texts[i]
    ensures Split(Join(texts, ","), ',') == texts
    decreases |texts|
  {
    if |texts| == 1 {
      SplitCons(texts[0], "", ',');
      assert texts == [texts[0]];
    } else {
      SplitJoined(texts[1..]);
      SplitCons(texts[0], Join(texts[1..], ","), ',');
      HeadTail(texts);
    }
  }

  lemma EntriesFirst(text: string, rest: seq<string>)
    ensures Entries([text] + rest) == (if Trim(text) == "" then [] else [Trim(text)]) + Entries(rest)
  {
    assert ([text] + rest)[1..] == rest;
  }

  lemma NothingBefore<T>(a: seq<T>)
    ensures [] + a == a
  {}

  lemma {:induction false} EntriesOfPieces(pieces: seq<Piece>)
    requires AllValid(pieces)
    ensures Entries(Texts(pieces)) == Cores(pieces)
    decreases |pieces|
  {
    if pieces != [] {
      TrimPiece(pieces[0]);
      EntriesOfPieces(pieces[1..]);
      EntriesFirst(pieces[0].Text(), Texts(pieces[1..]));
      NothingBefore(Cores(pieces[1..]));
    }
  }

  lemma NoComma(p: Piece)
    requires p.Valid()
    ensures ',' !in p.Text()
  {
    assert forall i :: 0 <= i < |p.lead| ==> p.lead[i] != ',';
    assert forall i :: 0 <= i < |p.tail| ==> p.tail[i] != ',';
  }

  lemma {:induction false} TextsAt(pieces: seq<Piece>)
    requires AllValid(pieces)
    ensures |Texts(pieces)| == |pieces|
    ensures forall i :: 0 <= i < |pieces| ==> Texts(pieces)[i] == pieces[i].Text() && ',' !in Texts(pieces)[i]
    decreases |pieces|
  {
    if pieces != [] {
      NoComma(pieces[0]);
      TextsAt(pieces[1..]);
    }
  }

  lemma EntriesOfCsv(pieces: seq<Piece>)
    requires AllValid(pieces)
    ensures Entries(Split(Join(Texts(pieces), ","), ',')) == Cores(pieces)
  {
    if pieces == [] {
      EntriesFirst("", []);
      assert [""] + [] == [""] && Entries([]) == [];
    } else {
      TextsAt(pieces);
      SplitJoined(Texts(pieces));
      EntriesOfPieces(pieces);
    }
  }

  // -------------------------------------------------------------------------
  // Parsing
  // -------------------------------------------------------------------------

  /** The outcome of parsing entries: all networks in order, or the first bad entry. */
  ghost predicate Outcome(v6: V6Text, entries: seq<string>, r: Result<seq<Network>>) {
    match r
    case Ok(nets) =>
      && |nets| == |entries|
      && forall i :: 0 <= i < |entries| ==> Parse(v6, entries[i]) == Ok(nets[i])
    case Invalid(bad) =>
      exists i :: 0 <= i < |entries| && entries[i] == bad && Parse(v6, bad).Invalid?
                  && forall j :: 0 <= j < i ==> Parse(v6, entries[j]).Ok?
  }

  lemma OutcomeFirst(v6: V6Text, entries: seq<string>, r: Result<seq<Network>>)
    requires entries != [] && Parse(v6, entries[0]).Ok? && Outcome(v6, entries[1..], r)
    ensures Outcome(v6, entries,
                    match r case Ok(nets) => Ok([Parse(v6, entries[0]).value] + nets) case Invalid(e) => Invalid(e))
  {
    match r
    case Ok(nets) =>
      assert forall i :: 1 <= i < |entries| ==> entries[i] == entries[1..][i - 1];
    case Invalid(bad) =>
      var i :| 0 <= i < |entries[1..]| && entries[1..][i] == bad && Parse(v6, bad).Invalid?
               && forall j :: 0 <= j < i ==> Parse(v6, entries[1..][j]).Ok?;
      assert entries[i + 1] == bad;
      assert forall j :: 1 <= j < i + 1 ==> entries[j] == entries[1..][j - 1];
  }

  lemma ParseNamesEntry(v6: V6Text, entry: string)
    ensures Parse(v6, entry).Invalid? ==> Parse(v6, entry).entry == entry
  {}

  lemma {:induction false} ParseAllOutcome(v6: V6Text, entries: seq<string>)
    ensures Outcome(v6, entries, ParseAll(v6, entries))
    decreases |entries|
  {
    if entries != [] {
      if Parse(v6, entries[0]).Ok? {
        ParseAllOutcome(v6, entries[1..]);
        OutcomeFirst(v6, entries, ParseAll(v6, entries[1..]));
      } else {
        ParseNamesEntry(v6, entries[0]);
      }
    }
  }

  /** The option is read as the networks of its entries that are not blank, in order, whatever blanks
      stand around them, or refused with the first of them that is no network. */
  lemma CsvMeaning(v6: V6Text, pieces: seq<Piece>)
    requires AllValid(pieces)
    ensures Outcome(v6, Cores(pieces), ParseCsv(v6, Join(Texts(pieces), ",")))
  {
    EntriesOfCsv(pieces);
    ParseAllOutcome(v6, Cores(pieces));
  }

  /** Every text is such an option. */
  lemma {:induction false} PiecesOf(texts: seq<string>) returns (pieces: seq<Piece>)
    requires forall i :: 0 <= i < |texts| ==> ',' !in texts[i]
    ensures AllValid(pieces) && Texts(pieces) == texts
    decreases |texts|
  {
    if texts == [] {
      pieces := [];
    } else {
      var p := PieceOf(texts[0]);
      var rest := PiecesOf(texts[1..]);
      pieces := [p] + rest;
      assert pieces[1..] == rest;
      HeadTail(texts);
    }
  }

  lemma AnyCsv(s: string) returns (pieces: seq<Piece>)
    ensures AllValid(pieces) && s == Join(Texts(pieces), ",")
  {
    pieces := PiecesOf(Split(s, ','));
    JoinSplit(s, ',');
  }

  /** The default, the empty text, is the empty list, which admits everybody. */
  lemma DefaultAdmitsAll(v6: V6Text, ip: Ip)
    ensures ParseCsv(v6, "") == Ok([]) && IsIpAllowed([], ip)
  {
    CsvMeaning(v6, []);
  }

  /** Blanks are the characters with the property White_Space of Unicode. */
  lemma BlanksAreWhiteSpace(c: char)
    ensures IsBlank(c) <==> c as int in [
      0x0009, 0x000a, 0x000b, 0x000c, 0x000d, 0x0020, 0x0085, 0x00a0, 0x1680,
      0x2000, 0x2001, 0x2002, 0x2003, 0x2004, 0x2005, 0x2006, 0x2007, 0x2008, 0x2009, 0x200a,
      0x2028, 0x2029, 0x202f, 0x205f, 0x3000]
  {
    assert 0x2000 <= c as int <= 0x200a <==> c as int - 0x2000 in [0, 1, 2, 3, 4, 5, 6, 7, 8, 9, 10];
  }
}
