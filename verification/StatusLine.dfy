/** The status-line command amux wraps so as to see the model, and how it finds the user's command again. */
module StatusLine {
  import opened Bytes
  import opened Text
  import Base64

  function Marker(): string {
    " agent model --statusline"
  }

  function Flag(): string {
    "--forward-base64="
  }

  /** The bytes of a Go string, and the string of bytes. */
  datatype Codec = Codec(encode: string -> bytes, decode: bytes -> string)

  /** A string reads back from its bytes, of which it has at least as many as characters. */
  ghost predicate Lawful(codec: Codec) {
    && (forall s :: codec.decode(codec.encode(s)) == s)
    && (forall b :: |codec.decode(b)| <= |b|)
  }

  predicate Occurs(s: string, sub: string, j: nat) {
    j + |sub| <= |s| && forall m :: 0 <= m < |sub| ==> s[j + m] == sub[m]
  }

  /** strings.Index */
  function Index(s: string, sub: string): (i: int)
    ensures -1 <= i <= |s|
  {
    if sub <= s then 0
    else if s == "" then -1
    else var k := Index(s[1..], sub); if k < 0 then -1 else k + 1
  }

  predicate Contains(s: string, sub: string) {
    Index(s, sub) >= 0
  }

  /** Index is the first place the text occurs, and -1 only where it does not occur. */
  lemma {:induction false} IndexIsFirst(s: string, sub: string)
    ensures Index(s, sub) >= 0 ==> Occurs(s, sub, Index(s, sub))
    ensures forall j: nat :: (Index(s, sub) < 0 || j < Index(s, sub)) ==> !Occurs(s, sub, j)
  {
    PrefixOccurs(s, sub);
    if !(sub <= s) && s != "" {
      IndexIsFirst(s[1..], sub);
      hide Occurs;
      OccursInTail(s, sub);
      forall j: nat | Index(s, sub) < 0 || j < Index(s, sub) ensures !Occurs(s, sub, j) {
        if j > 0 { assert Occurs(s, sub, (j - 1) + 1) == Occurs(s[1..], sub, j - 1); }
      }
    }
  }

  lemma PrefixOccurs(s: string, sub: string)
    ensures sub <= s <==> Occurs(s, sub, 0)
    ensures s == "" && sub != "" ==> forall j: nat :: !Occurs(s, sub, j)
  {
  }

  lemma OccursShift(s: string, sub: string, j: nat)
    requires s != ""
    ensures Occurs(s, sub, j + 1) == Occurs(s[1..], sub, j)
  {
    if j + 1 + |sub| <= |s| {
      assert s[1..][j..j + |sub|] == s[j + 1..j + 1 + |sub|];
    }
  }

  lemma OccursInTail(s: string, sub: string)
    requires s != ""
    ensures forall j: nat :: Occurs(s, sub, j + 1) == Occurs(s[1..], sub, j)
  {
    forall j: nat ensures Occurs(s, sub, j + 1) == Occurs(s[1..], sub, j) {
      OccursShift(s, sub, j);
    }
  }

  /** What follows the first marker. */
  function Rest(s: string): string
    requires Contains(s, Marker())
  {
    IndexIsFirst(s, Marker());
    s[Index(s, Marker()) + |Marker()|..]
  }

  /** The length of the leading run of characters that are not spaces. */
  function WordLength(s: string): (n: nat)
    ensures n <= |s| && forall i :: 0 <= i < n ==> !IsSpace(s[i])
    ensures n < |s| ==> IsSpace(s[n])
  {
    if s == "" || IsSpace(s[0]) then 0 else 1 + WordLength(s[1..])
  }

  /** strings.Fields */
  function Fields(s: string): seq<string>
    decreases |s|
  {
    if s == "" then []
    else if IsSpace(s[0]) then Fields(s[1..])
    else [s[..WordLength(s)]] + Fields(s[WordLength(s)..])
  }

  /** What one field forwards, if it is a forward flag that decodes. */
  function Forwards(codec: Codec, field: string): Option<string> {
    if Flag() <= field then
      var b := Base64.Decode(field[|Flag()|..]);
      if b.Some? then Some(codec.decode(b.value)) else None
    else None
  }

  function FirstForward(codec: Codec, fields: seq<string>): Option<string> {
    if fields == [] then None
    else if Forwards(codec, fields[0]).Some? then Forwards(codec, fields[0])
    else FirstForward(codec, fields[1..])
  }

  /** unwrapModelStatusLine; None for a command that is not a wrapper. */
  function Unwrapped(codec: Codec, command: string): Option<string> {
    if !Contains(command, Marker()) then None
    else
      var found := FirstForward(codec, Fields(Rest(command)));
      Some(if found.Some? then found.value else "")
  }

  /** The scan over the wrapper's fields. */
  method Unwrap(codec: Codec, command: string) returns (r: Option<string>)
    ensures r == Unwrapped(codec, command)
  {
    if !Contains(command, Marker()) { return None; }
    var fields := Fields(Rest(command));
    for i := 0 to |fields|
      invariant FirstForward(codec, fields[i..]) == FirstForward(codec, fields)
    {
      assert fields[i..][1..] == fields[i + 1..];
      var found := Forwards(codec, fields[i]);
      if found.Some? { return found; }
    }
    return Some("");
  }

  /** The wrapper around a command; a blank command has nothing to forward. */
  function Wrapped(codec: Codec, path: string, command: string): string {
    path + Marker() + Tail(codec, command)
  }

  function Tail(codec: Codec, command: string): string {
    if Blank(command) then "" else " " + Flag() + Base64.Encode(codec.encode(command))
  }

  /** The command a status line runs for the user: what a wrapper forwards, or the command itself. */
  function Original(codec: Codec, command: string): string {
    var inner := Unwrapped(codec, command);
    if inner.Some? then inner.value else command
  }

  /** installModelStatusLine on the command. */
  function Installed(codec: Codec, path: string, command: string): string {
    Wrapped(codec, path, Original(codec, command))
  }

  // ---- fields -----------------------------------------------------------------------------

  lemma {:induction false} WordLengthOfConcat(a: string, b: string)
    requires b == "" || IsSpace(b[0])
    ensures WordLength(a + b) == WordLength(a)
  {
    if a == "" {
      assert a + b == b;
    } else if !IsSpace(a[0]) {
      assert (a + b)[1..] == a[1..] + b;
      WordLengthOfConcat(a[1..], b);
    }
  }

  /** Fields of a text followed by a space are the fields of both. */
  lemma {:induction false} FieldsOfConcat(a: string, b: string)
    requires b == "" || IsSpace(b[0])
    ensures Fields(a + b) == Fields(a) + Fields(b)
    decreases |a|
  {
    if a == "" {
      assert a + b == b;
    } else if IsSpace(a[0]) {
      assert (a + b)[1..] == a[1..] + b;
      FieldsOfConcat(a[1..], b);
    } else {
      var n := WordLength(a);
      WordLengthOfConcat(a, b);
      assert (a + b)[..n] == a[..n] && (a + b)[n..] == a[n..] + b;
      FieldsOfConcat(a[n..], b);
    }
  }

  lemma {:induction false} FieldsOfWord(w: string)
    requires w != "" && forall i :: 0 <= i < |w| ==> !IsSpace(w[i])
    ensures Fields(w) == [w]
  {
    assert WordLength(w) == |w|;
    assert w[..|w|] == w && w[|w|..] == "";
  }

  lemma {:induction false} FirstForwardOfConcat(codec: Codec, a: seq<string>, b: seq<string>)
    ensures FirstForward(codec, a + b) == if FirstForward(codec, a).Some? then FirstForward(codec, a) else FirstForward(codec, b)
  {
    if a == [] {
      assert a + b == b;
    } else {
      assert (a + b)[1..] == a[1..] + b;
      FirstForwardOfConcat(codec, a[1..], b);
    }
  }

  // ---- where the marker is found ------------------------------------------------------------

  lemma IndexIs(s: string, sub: string, i: nat)
    requires Occurs(s, sub, i) && forall j: nat :: j < i ==> !Occurs(s, sub, j)
    ensures Index(s, sub) == i
  {
    IndexIsFirst(s, sub);
    hide Index, Occurs;
  }

  /** What follows a path cannot move its first marker. */
  lemma MarkerInPath(path: string, rest: string)
    requires Contains(path, Marker())
    ensures Index(path + rest, Marker()) == Index(path, Marker())
  {
    IndexIsFirst(path, Marker());
    hide Index, Marker;
    var s, i := path + rest, Index(path, Marker());
    forall j: nat | j < i ensures !Occurs(s, Marker(), j) {
      assert !Occurs(path, Marker(), j);
    }
    assert Occurs(s, Marker(), i);
    IndexIs(s, Marker(), i);
  }

  /** The marker cannot overlap itself. */
  lemma MarkerHasNoBorder(k: nat)
    requires 0 < k < |Marker()|
    ensures exists m :: k <= m < |Marker()| && Marker()[m] != Marker()[m - k]
  {
    if Marker()[k] == ' ' {
      assert k == 6 || k == 12;
      assert Marker()[k + 1] != Marker()[1];
      assert Marker()[k + 1] != Marker()[k + 1 - k];
    } else {
      assert Marker()[k] != Marker()[k - k];
    }
  }

  lemma MarkerAfterPath(path: string, rest: string)
    requires !Contains(path, Marker())
    ensures Index(path + Marker() + rest, Marker()) == |path|
  {
    IndexIsFirst(path, Marker());
    hide Index, Marker;
    var s, i := path + Marker() + rest, |path|;
    assert Occurs(s, Marker(), i);
    forall j: nat | j < i ensures !Occurs(s, Marker(), j) {
      assert !Occurs(path, Marker(), j);
      if j + |Marker()| > |path| {
        MarkerHasNoBorder(i - j);
        var m :| i - j <= m < |Marker()| && Marker()[m] != Marker()[m - (i - j)];
        assert s[j + m] == Marker()[m - (i - j)];
      }
    }
    IndexIs(s, Marker(), i);
  }

  // ---- wrapping and unwrapping ---------------------------------------------------------------

  /** Visible ASCII. */
  predicate IsWord(w: string) {
    w != "" && forall i :: 0 <= i < |w| ==> '!' <= w[i] <= '~'
  }

  lemma FieldsOfSpacedWord(w: string)
    requires IsWord(w)
    ensures Fields(" " + w) == [w]
  {
    assert (" " + w)[1..] == w;
    FieldsOfWord(w);
  }

  lemma MarkerFields()
    ensures Fields(Marker()) == ["agent"] + (["model"] + ["--statusline"])
  {
    hide Fields;
    var a, b, c := "agent", "model", "--statusline";
    assert Marker() == " " + a + (" " + b + (" " + c));
    FieldsOfConcat(" " + a, " " + b + (" " + c));
    FieldsOfConcat(" " + b, " " + c);
    FieldsOfSpacedWord(a);
    FieldsOfSpacedWord(b);
    FieldsOfSpacedWord(c);
  }

  lemma MarkerForwardsNothing(codec: Codec)
    ensures FirstForward(codec, Fields(Marker())) == None
  {
    hide Fields, FirstForward;
    MarkerFields();
    assert "--statusline"[2] != Flag()[2];
    ThreeForwardNothing(codec, "agent", "model", "--statusline");
  }

  lemma ThreeForwardNothing(codec: Codec, a: string, b: string, c: string)
    requires !(Flag() <= a) && !(Flag() <= b) && !(Flag() <= c)
    ensures FirstForward(codec, [a] + ([b] + [c])) == None
  {
    hide Flag;
    FirstForwardOfConcat(codec, [a], [b] + [c]);
    FirstForwardOfConcat(codec, [b], [c]);
    assert [a][1..] == [] && [b][1..] == [] && [c][1..] == [];
  }

  lemma EncodingIsWord(b: bytes)
    ensures IsWord(Flag() + Base64.Encode(b))
  {
    Base64.EncodesLetters(b);
    var e := Base64.Encode(b);
    hide Base64.Encode;
    forall i | 0 <= i < |e| ensures '!' <= e[i] <= '~' {
      assert e[i] in e;
    }
  }

  lemma OneForwards(codec: Codec, w: string)
    ensures FirstForward(codec, [w]) == Forwards(codec, w)
  {
    assert [w][1..] == [];
  }

  lemma TailForwards(codec: Codec, command: string)
    requires Lawful(codec)
    ensures FirstForward(codec, Fields(Tail(codec, command))) == if Blank(command) then None else Some(command)
  {
    hide Flag, Fields, Base64.Encode, Base64.Decode, Blank;
    if Blank(command) {
      assert Fields("") == [] by { NoFields(); }
    } else {
      var b := codec.encode(command);
      var w := Flag() + Base64.Encode(b);
      EncodingIsWord(b);
      FieldsOfSpacedWord(w);
      assert Tail(codec, command) == " " + w;
      Base64.DecodeUndoesEncode(b);
      assert w[|Flag()|..] == Base64.Encode(b);
      OneForwards(codec, w);
    }
  }

  lemma NoFields()
    ensures Fields("") == []
  {
  }

  /** A forward flag the path itself carries, behind a marker of its own. */
  function PathForward(codec: Codec, path: string): Option<string> {
    if Contains(path, Marker()) then FirstForward(codec, Fields(Rest(path))) else None
  }

  lemma RestUnderMarkedPath(path: string, tail: string)
    requires Contains(path, Marker())
    ensures Contains(path + Marker() + tail, Marker())
    ensures Rest(path + Marker() + tail) == Rest(path) + (Marker() + tail)
  {
    assert path + Marker() + tail == path + (Marker() + tail);
    MarkerInPath(path, Marker() + tail);
    IndexIsFirst(path, Marker());
    hide Marker, Index;
  }

  lemma RestAfterPath(path: string, tail: string)
    requires !Contains(path, Marker())
    ensures Contains(path + Marker() + tail, Marker())
    ensures Rest(path + Marker() + tail) == tail
  {
    hide Marker, Index;
    MarkerAfterPath(path, tail);
  }

  lemma MarkedPathForwardsFirst(codec: Codec, own: string, tail: string)
    requires tail == "" || IsSpace(tail[0])
    ensures FirstForward(codec, Fields(own + (Marker() + tail))) ==
            if FirstForward(codec, Fields(own)).Some? then FirstForward(codec, Fields(own)) else FirstForward(codec, Fields(tail))
  {
    MarkerStart();
    MarkerForwardsNothing(codec);
    hide Fields, FirstForward, Marker;
    FieldsOfConcat(own, Marker() + tail);
    FieldsOfConcat(Marker(), tail);
    FirstForwardOfConcat(codec, Fields(own), Fields(Marker()) + Fields(tail));
    FirstForwardOfConcat(codec, Fields(Marker()), Fields(tail));
  }

  lemma MarkerStart()
    ensures Marker() != "" && IsSpace(Marker()[0])
  {
  }

  /** What unwrapping a wrapper finds, for every path and command. */
  lemma UnwrapOfWrap(codec: Codec, path: string, command: string)
    requires Lawful(codec)
    ensures Unwrapped(codec, Wrapped(codec, path, command)) ==
            Some(if PathForward(codec, path).Some? then PathForward(codec, path).value else if Blank(command) then "" else command)
  {
    hide Fields, FirstForward, Marker, Contains, Blank, Tail, Rest;
    var tail := Tail(codec, command);
    TailForwards(codec, command);
    TailStart(codec, command);
    if Contains(path, Marker()) {
      RestUnderMarkedPath(path, tail);
      MarkedPathForwardsFirst(codec, Rest(path), tail);
    } else {
      RestAfterPath(path, tail);
    }
  }

  lemma TailStart(codec: Codec, command: string)
    ensures Tail(codec, command) == "" || IsSpace(Tail(codec, command)[0])
  {
  }

  /** The wrapper gives the user's command back exactly when the path does not forward some other command. */
  lemma UnwrapsToOriginalIff(codec: Codec, path: string, command: string)
    requires Lawful(codec)
    ensures var shown := if Blank(command) then "" else command;
            Unwrapped(codec, Wrapped(codec, path, command)) == Some(shown) <==> PathForward(codec, path) in {None, Some(shown)}
  {
    UnwrapOfWrap(codec, path, command);
  }

  lemma BlankIsNotForwarded(codec: Codec, path: string, command: string)
    requires Blank(command)
    ensures Wrapped(codec, path, command) == Wrapped(codec, path, "")
  {
  }

  /** Reinstalling, under any new path, is installing once: wrappers never nest. */
  lemma ReinstallIsInstall(codec: Codec, first: string, second: string, command: string)
    requires Lawful(codec) && PathForward(codec, first).None?
    ensures Installed(codec, second, Installed(codec, first, command)) == Installed(codec, second, command)
  {
    var original := Original(codec, command);
    UnwrapOfWrap(codec, first, original);
    if Blank(original) { BlankIsNotForwarded(codec, second, original); }
  }

  /** A path with a marker and a forward flag of its own hides the command it wraps. */
  lemma PathWithFlagHidesCommand(codec: Codec, other: string, command: string)
    requires Lawful(codec) && other != command && !Blank(other)
    ensures Unwrapped(codec, Wrapped(codec, Marker() + Tail(codec, other), command)) == Some(other)
  {
    NothingContainsMarker();
    hide Fields, FirstForward, Marker, Contains, Blank, Tail, Rest;
    var path := Marker() + Tail(codec, other);
    assert path == "" + Marker() + Tail(codec, other);
    RestAfterPath("", Tail(codec, other));
    TailForwards(codec, other);
    UnwrapOfWrap(codec, path, command);
  }

  // ---- whose command it is ---------------------------------------------------------------------

  /** Decoding gives fewer bytes than letters. */
  lemma {:induction false} DecodingShrinks(s: string)
    requires Base64.Decode(s).Some?
    ensures |Base64.Decode(s).value| <= |s|
  {
    LettersShrink(s);
  }

  lemma {:induction false} LettersShrink(s: string)
    requires (forall c :: c in s ==> Base64.Rank(c).Some?) && Base64.DecodeLetters(s).Some?
    ensures |Base64.DecodeLetters(s).value| <= |s|
  {
    if |s| >= 4 {
      assert forall c :: c in s[4..] ==> c in s;
      LettersShrink(s[4..]);
    }
  }

  lemma {:induction false} FieldsFit(s: string, field: string)
    requires field in Fields(s)
    ensures |field| <= |s|
    decreases |s|
  {
    if IsSpace(s[0]) {
      FieldsFit(s[1..], field);
    } else if field != s[..WordLength(s)] {
      FieldsFit(s[WordLength(s)..], field);
    }
  }

  lemma {:induction false} FirstForwardIsOfAField(codec: Codec, fields: seq<string>) returns (field: string)
    requires FirstForward(codec, fields).Some?
    ensures field in fields && Forwards(codec, field) == FirstForward(codec, fields)
  {
    if Forwards(codec, fields[0]).Some? { field := fields[0]; } else { field := FirstForwardIsOfAField(codec, fields[1..]); }
  }

  /** What a wrapper forwards is shorter than the wrapper. */
  lemma ForwardedIsShorter(codec: Codec, command: string)
    requires Lawful(codec) && Contains(command, Marker()) && FirstForward(codec, Fields(Rest(command))).Some?
    ensures |FirstForward(codec, Fields(Rest(command))).value| < |command|
  {
    var field := FirstForwardIsOfAField(codec, Fields(Rest(command)));
    FieldsFit(Rest(command), field);
    DecodingShrinks(field[|Flag()|..]);
    IndexIsFirst(command, Marker());
    hide Base64.Decode;
  }

  /** The user's own command is taken as it stands exactly when it does not hold the marker. */
  lemma CommandIsKeptIff(codec: Codec, command: string)
    requires Lawful(codec)
    ensures Original(codec, command) == command <==> !Contains(command, Marker())
  {
    hide Fields, FirstForward, Marker, Rest;
    if Contains(command, Marker()) {
      assert command != "" by { NothingContainsMarker(); }
      if FirstForward(codec, Fields(Rest(command))).Some? { ForwardedIsShorter(codec, command); }
    }
  }

  lemma MarkedIsNotBlank(command: string)
    requires Contains(command, Marker())
    ensures !Blank(command)
  {
    IndexIsFirst(command, Marker());
    MarkerHasALetter();
    hide Marker, Index, IsSpace;
    assert command[Index(command, Marker()) + 1] == Marker()[1];
  }

  lemma MarkerHasALetter()
    ensures |Marker()| > 1 && !IsSpace(Marker()[1])
  {
  }

  /** What the status line shows of a command: nothing of a blank one. */
  function Shown(command: string): string {
    if Blank(command) then "" else command
  }

  /**
   An installed line runs the user's own command exactly when that does not hold the marker; under a path that forwards
   a command itself, exactly when it is that command.
   */
  lemma InstallRunsUsersCommandIff(codec: Codec, path: string, command: string)
    requires Lawful(codec)
    ensures Unwrapped(codec, Installed(codec, path, command)) == Some(Shown(command)) <==>
            if PathForward(codec, path).Some? then PathForward(codec, path).value == Shown(command) else !Contains(command, Marker())
  {
    UnwrapOfWrap(codec, path, Original(codec, command));
    CommandIsKeptIff(codec, command);
    hide Unwrapped, Wrapped, Original, PathForward, Blank, Contains, Marker;
    if Contains(command, Marker()) {
      MarkedIsNotBlank(command);
      assert command != "" by { NothingContainsMarker(); }
    }
  }

  /** A status line of the user's own that holds the marker and forwards nothing is taken for a wrapper and dropped. */
  lemma UsersMarkerIsDropped(codec: Codec, path: string, tool: string)
    requires Lawful(codec) && !Contains(tool, Marker())
    ensures Installed(codec, path, tool + Marker()) == Wrapped(codec, path, "")
  {
    hide Fields, FirstForward, Marker, Contains, Tail, Rest, Blank;
    assert tool + Marker() == tool + Marker() + "";
    RestAfterPath(tool, "");
    NoFields();
    assert FirstForward(codec, []) == None by { NothingForwards(codec); }
  }

  lemma NothingForwards(codec: Codec)
    ensures FirstForward(codec, []) == None
  {
  }

  lemma NothingContainsMarker()
    ensures !Contains("", Marker())
  {
  }
}
