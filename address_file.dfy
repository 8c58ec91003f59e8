/** The node's address file: "address name" text, split on single spaces,
    and the address and name labels the launcher derives from it
    (`refresh_local_address`). */
module AddressFile {
  import opened Slices

  datatype Option<T> = None | Some(value: T)

  const NotFoundLabel: string := "Address file not found."

  /** Characters of the address kept at each end of the displayed form. */
  const DisplayWidth: nat := 8

  // ---------------------------------------------------------------------
  // Tokenising
  // ---------------------------------------------------------------------

  function SpaceCount(s: string): nat {
    if s == [] then 0 else (if s[0] == ' ' then 1 else 0) + SpaceCount(s[1..])
  }

  /** Python's `s.split(' ')`: cut at every single space, keeping empty pieces. */
  function SplitOnSpace(s: string): (pieces: seq<string>)
    ensures |pieces| == SpaceCount(s) + 1
    ensures forall i :: 0 <= i < |pieces| ==> ' ' !in pieces[i]
  {
    if s == [] then [""]
    else
      var rest := SplitOnSpace(s[1..]);
      if s[0] == ' ' then [""] + rest
      else [[s[0]] + rest[0]] + rest[1..]
  }

  /** Python's `' '.join(pieces)`. */
  function JoinWithSpace(pieces: seq<string>): string {
    if |pieces| == 0 then ""
    else if |pieces| == 1 then pieces[0]
    else pieces[0] + " " + JoinWithSpace(pieces[1..])
  }

  /** The list comprehension keeping the pieces with `len(x) > 0`. */
  function DropEmpty(pieces: seq<string>): (kept: seq<string>)
    ensures forall w :: w in kept <==> w in pieces && w != []
  {
    if pieces == [] then []
    else (if pieces[0] == [] then [] else [pieces[0]]) + DropEmpty(pieces[1..])
  }

  /** The tokens of the address file: non-empty and free of spaces. A newline
      is not a separator, so it stays attached to the token it follows. */
  function Tokens(text: string): (tokens: seq<string>)
    ensures forall i :: 0 <= i < |tokens| ==> tokens[i] != [] && ' ' !in tokens[i]
  {
    var kept := DropEmpty(SplitOnSpace(text));
    assert forall i :: 0 <= i < |kept| ==> kept[i] in kept;
    kept
  }

  predicate SpaceFree(w: string) {
    ' ' !in w
  }

  predicate AllSpaces(s: string) {
    forall i :: 0 <= i < |s| ==> s[i] == ' '
  }

  /** Joining the pieces of a split gives the text back. */
  lemma {:induction false} JoinSplit(s: string)
    ensures JoinWithSpace(SplitOnSpace(s)) == s
  {
    if s != [] {
      var rest := SplitOnSpace(s[1..]);
      JoinSplit(s[1..]);
      if s[0] == ' ' {
        assert ([""] + rest)[1..] == rest;
      } else if |rest| > 1 {
        assert ([[s[0]] + rest[0]] + rest[1..])[1..] == rest[1..];
        assert s == [s[0]] + s[1..];
      } else {
        assert s == [s[0]] + s[1..];
      }
    }
  }

  /** A space-free word splits into itself. */
  lemma {:induction false} SplitSpaceFree(w: string)
    requires SpaceFree(w)
    ensures SplitOnSpace(w) == [w]
  {
    if w != [] {
      SplitSpaceFree(w[1..]);
      assert [w[0]] + w[1..] == w;
    }
  }

  /** Splitting `w + " " + t` for a space-free `w` yields `w` and then the pieces of `t`. */
  lemma {:induction false} SplitAfterWord(w: string, t: string)
    requires SpaceFree(w)
    ensures SplitOnSpace(w + " " + t) == [w] + SplitOnSpace(t)
  {
    if w == [] {
      assert w + " " + t == [' '] + t;
      assert (w + " " + t)[1..] == t;
    } else {
      var s := w + " " + t;
      assert s[1..] == w[1..] + " " + t;
      SplitAfterWord(w[1..], t);
      assert [s[0]] + w[1..] == w;
    }
  }

  /** Splitting a space-joined list of space-free pieces gives the pieces back. */
  lemma {:induction false} SplitJoin(pieces: seq<string>)
    requires |pieces| >= 1
    requires forall i :: 0 <= i < |pieces| ==> SpaceFree(pieces[i])
    ensures SplitOnSpace(JoinWithSpace(pieces)) == pieces
  {
    if |pieces| == 1 {
      SplitSpaceFree(pieces[0]);
    } else {
      SplitJoin(pieces[1..]);
      SplitAfterWord(pieces[0], JoinWithSpace(pieces[1..]));
      assert [pieces[0]] + pieces[1..] == pieces;
    }
  }

  lemma {:induction false} DropEmptyOfNonEmpty(pieces: seq<string>)
    requires forall i :: 0 <= i < |pieces| ==> pieces[i] != []
    ensures DropEmpty(pieces) == pieces
  {
    if pieces != [] {
      DropEmptyOfNonEmpty(pieces[1..]);
      assert [pieces[0]] + pieces[1..] == pieces;
    }
  }

  /** The filter works piece by piece, so it keeps the order of the pieces. */
  lemma {:induction false} DropEmptyAppend(a: seq<string>, b: seq<string>)
    ensures DropEmpty(a + b) == DropEmpty(a) + DropEmpty(b)
  {
    if a == [] {
      assert a + b == b;
    } else {
      var head := if a[0] == [] then [] else [a[0]];
      DropEmptyAppend(a[1..], b);
      calc {
        DropEmpty(a + b);
        { assert (a + b)[0] == a[0] && (a + b)[1..] == a[1..] + b; }
        head + DropEmpty(a[1..] + b);
        head + (DropEmpty(a[1..]) + DropEmpty(b));
        (head + DropEmpty(a[1..])) + DropEmpty(b);
        DropEmpty(a) + DropEmpty(b);
      }
    }
  }

  /** A text without spaces is one token, or none when it is empty. */
  lemma TokensOfWord(w: string)
    requires SpaceFree(w)
    ensures Tokens(w) == if w == [] then [] else [w]
  {
    SplitSpaceFree(w);
    assert [w][1..] == [];
    assert DropEmpty([w]) == (if w == [] then [] else [w]) + DropEmpty([]);
  }

  /** Tokenising from the left: the text up to its first space is a token
      unless it is empty, and the tokens of the rest follow. With
      `TokensOfWord` this fixes the tokens of every text, whatever its
      leading, trailing or repeated spaces. */
  lemma TokensAfterWord(w: string, t: string)
    requires SpaceFree(w)
    ensures Tokens(w + " " + t) == (if w == [] then [] else [w]) + Tokens(t)
  {
    SplitAfterWord(w, t);
    DropEmptyAppend([w], SplitOnSpace(t));
  }

  /** The file has no tokens exactly when it holds nothing but spaces. */
  lemma {:induction false} NoTokensIffAllSpaces(text: string)
    ensures Tokens(text) == [] <==> AllSpaces(text)
  {
    if text != [] {
      var rest := SplitOnSpace(text[1..]);
      NoTokensIffAllSpaces(text[1..]);
      if text[0] == ' ' {
        assert ([""] + rest)[1..] == rest;
        assert Tokens(text) == Tokens(text[1..]);
        assert AllSpaces(text) <==> AllSpaces(text[1..]) by {
          if AllSpaces(text[1..]) {
            forall i | 0 <= i < |text| ensures text[i] == ' ' {
              if i > 0 { assert text[i] == text[1..][i - 1]; }
            }
          }
        }
      } else {
        assert SplitOnSpace(text)[0] != [];
        assert Tokens(text) != [];
      }
    }
  }

  /** Tokenising a space-joined list of tokens gives the tokens back. */
  lemma TokensOfJoin(tokens: seq<string>)
    requires |tokens| >= 1
    requires forall i :: 0 <= i < |tokens| ==> tokens[i] != [] && SpaceFree(tokens[i])
    ensures Tokens(JoinWithSpace(tokens)) == tokens
  {
    SplitJoin(tokens);
    DropEmptyOfNonEmpty(tokens);
  }

  /** A trailing newline after the name stays part of the name token. */
  lemma NewlineStaysOnName(addr: string, name: string)
    requires addr != [] && SpaceFree(addr)
    requires SpaceFree(name)
    ensures Tokens(addr + " " + name + "\n") == [addr, name + "\n"]
  {
    var ts := [addr, name + "\n"];
    assert JoinWithSpace(ts) == addr + " " + name + "\n" by {
      assert ts[1..] == [name + "\n"];
    }
    TokensOfJoin(ts);
  }

  // ---------------------------------------------------------------------
  // The displayed address
  // ---------------------------------------------------------------------

  /** `a[:8] + '...' + a[-8:]`. */
  function Abbreviate(addr: string): (shown: string)
    ensures |shown| == 2 * Min(DisplayWidth, |addr|) + 3
  {
    TakeFirst(addr, DisplayWidth) + "..." + TakeLast(addr, DisplayWidth)
  }

  /** The display starts with the address's first eight characters, ends
      with its last eight, and has "..." between them; a 16-character
      address is recovered by dropping the dots, and an address of eight
      characters or fewer is shown twice. */
  lemma AbbreviateShape(addr: string)
    ensures var shown := Abbreviate(addr);
            var m := Min(DisplayWidth, |addr|);
            shown[..m] == addr[..m] &&
            shown[m..m + 3] == "..." &&
            shown[m + 3..] == addr[|addr| - m..]
    ensures |addr| == 2 * DisplayWidth ==>
              Abbreviate(addr)[..DisplayWidth] + Abbreviate(addr)[DisplayWidth + 3..] == addr
    ensures |addr| <= DisplayWidth ==> Abbreviate(addr) == addr + "..." + addr
  {
  }

  function AddressLabel(addr: string): string {
    "Addr: " + Abbreviate(addr)
  }

  /** `'Name: ' + name if a name token exists else ''`. */
  function NameLabel(name: Option<string>): string {
    match name
    case Some(n) => "Name: " + n
    case None => ""
  }

  // ---------------------------------------------------------------------
  // Reading the file and updating what the launcher shows
  // ---------------------------------------------------------------------

  /** What a read of the address file means for the launcher. */
  datatype Reading =
    | NotFound                                        // file missing or no tokens
    | SameAddress                                     // first token is the current address
    | NewAddress(addr: string, name: Option<string>)  // a different address, with its name if any

  /** The read, given the file's text (None when the file does not exist) and
      the current `node_addr`. */
  function Read(file: Option<string>, current: string): (r: Reading)
    ensures r.NotFound? <==> file.None? || Tokens(file.value) == []
    ensures file.Some? && Tokens(file.value) != [] ==>
              (r.SameAddress? <==> Tokens(file.value)[0] == current)
    ensures r.NewAddress? ==>
              var tokens := Tokens(file.value);
              r.addr == tokens[0] &&
              r.name == (if |tokens| > 1 then Some(tokens[1]) else None)
    ensures r.NewAddress? ==> r.addr != current && r.addr != [] && SpaceFree(r.addr)
    ensures r.NewAddress? && r.name.Some? ==> r.name.value != [] && SpaceFree(r.name.value)
  {
    match file
    case None => NotFound
    case Some(text) =>
      var tokens := Tokens(text);
      if |tokens| == 0 then NotFound
      else if tokens[0] == current then SameAddress
      else NewAddress(tokens[0], if |tokens| > 1 then Some(tokens[1]) else None)
  }

  /** The launcher state `refresh_local_address` reads and writes. */
  datatype AddressView = AddressView(
    nodeAddr: string,
    nodeName: string,
    addressLabel: string,
    nameLabel: string,
    uptimeLabel: string,
    epochLabel: string,
    epochAvailLabel: string)

  /** One refresh of the address state from the file. */
  function Refresh(view: AddressView, file: Option<string>): (v: AddressView)
    ensures Read(file, view.nodeAddr).SameAddress? ==> v == view
    ensures Read(file, view.nodeAddr).NotFound? ==>
              v == view.(addressLabel := NotFoundLabel, nameLabel := "")
    ensures Read(file, view.nodeAddr).NewAddress? ==>
              var addr := Read(file, view.nodeAddr).addr;
              var name := Read(file, view.nodeAddr).name;
              v.nodeAddr == addr &&
              v.nodeName == (if name.Some? then name.value else "") &&
              v.addressLabel == "Addr: " + TakeFirst(addr, DisplayWidth) + "..." + TakeLast(addr, DisplayWidth) &&
              v.nameLabel == (if name.Some? then "Name: " + name.value else "") &&
              v.uptimeLabel == "Up Time: 0" && v.epochLabel == "Epoch: 0" &&
              v.epochAvailLabel == "Epoch avail: 0"
  {
    match Read(file, view.nodeAddr)
    case NotFound => view.(addressLabel := NotFoundLabel, nameLabel := "")
    case SameAddress => view
    case NewAddress(addr, name) =>
      AddressView(
        addr,
        match name case Some(n) => n case None => "",
        AddressLabel(addr),
        NameLabel(name),
        "Up Time: 0", "Epoch: 0", "Epoch avail: 0")
  }

  /** The not-found path is taken exactly when the file does not exist or holds only spaces. */
  lemma NotFoundIffNoTokens(file: Option<string>, current: string)
    ensures Read(file, current).NotFound? <==> file.None? || AllSpaces(file.value)
  {
    if file.Some? {
      NoTokensIffAllSpaces(file.value);
    }
  }

  /** A well-formed file "address name" for a new address sets the address,
      the name and both labels from its two words. */
  lemma WellFormedFileSetsAddress(view: AddressView, addr: string, name: string)
    requires addr != [] && SpaceFree(addr) && name != [] && SpaceFree(name)
    requires addr != view.nodeAddr
    ensures var v := Refresh(view, Some(addr + " " + name));
            v.nodeAddr == addr && v.nodeName == name &&
            v.addressLabel == "Addr: " + TakeFirst(addr, DisplayWidth) + "..." + TakeLast(addr, DisplayWidth) &&
            v.nameLabel == "Name: " + name
  {
    var ts := [addr, name];
    assert JoinWithSpace(ts) == addr + " " + name by {
      assert ts[1..] == [name];
    }
    TokensOfJoin(ts);
  }

  /** A file holding only an address for a new address clears the name and its label. */
  lemma AddressOnlyFileClearsName(view: AddressView, addr: string)
    requires addr != [] && SpaceFree(addr)
    requires addr != view.nodeAddr
    ensures var v := Refresh(view, Some(addr));
            v.nodeAddr == addr && v.nodeName == "" && v.nameLabel == ""
  {
    TokensOfJoin([addr]);
  }

  /** Refreshing twice from the same file is refreshing once. */
  lemma RefreshIdempotent(view: AddressView, file: Option<string>)
    ensures Refresh(Refresh(view, file), file) == Refresh(view, file)
  {
  }

  /** After a read that finds nothing, the same address coming back counts as
      unchanged, so "Address file not found." stays on display. */
  lemma StaleNotFoundLabel(view: AddressView, text: string)
    requires |Tokens(text)| > 0 && Tokens(text)[0] == view.nodeAddr
    ensures Refresh(Refresh(view, None), Some(text)).addressLabel == NotFoundLabel
  {
  }
}
