/** apps/api/app/printers/media_options.py: a quote- and escape-aware splitter
    paired with a join, and the filter that runs between them. */
module MediaOptions {
  import opened Prelude

  /** What the scanner remembers between characters. */
  datatype Mode = Mode(quote: Option<char>, escaped: bool)

  const FRESH := Mode(None, false)

  const MEDIA_OPTION_KEYS: set<string> := {
    "media", "media-col", "media-size", "media-top-margin", "media-bottom-margin",
    "media-left-margin", "media-right-margin", "PageSize", "PageRegion"
  }

  function Next(m: Mode, c: char): Mode {
    if m.escaped then m.(escaped := false)
    else if c == '\\' then m.(escaped := true)
    else if m.quote.Some? then (if c == m.quote.value then m.(quote := None) else m)
    else if c == '"' || c == '\'' then m.(quote := Some(c))
    else m
  }

  /** A character separates tokens only outside every quote and escape. */
  predicate Breaks(m: Mode, c: char) {
    m == FRESH && IsSpace(c)
  }

  function Flush(current: string): seq<string> {
    if current == "" then [] else [current]
  }

  /** The tokens still to come, given the part of a token already read. */
  function SplitFrom(s: string, current: string, m: Mode): seq<string> {
    if s == "" then Flush(current)
    else if Breaks(m, s[0]) then Flush(current) + SplitFrom(s[1..], "", m)
    else SplitFrom(s[1..], current + [s[0]], Next(m, s[0]))
  }

  function Split(s: string): seq<string> {
    SplitFrom(s, "", FRESH)
  }

  /** The loop of `split_job_options`, with its own three variables. */
  method SplitJobOptions(jobOptions: string) returns (tokens: seq<string>)
    ensures tokens == Split(jobOptions)
  {
    tokens := [];
    var current := "";
    var quote: Option<char> := None;
    var escaped := false;
    for i := 0 to |jobOptions|
      invariant tokens + SplitFrom(jobOptions[i..], current, Mode(quote, escaped)) == Split(jobOptions)
    {
      var c := jobOptions[i];
      assert jobOptions[i..][0] == c && jobOptions[i..][1..] == jobOptions[i + 1..];
      if escaped {
        current := current + [c];
        escaped := false;
      } else if c == '\\' {
        current := current + [c];
        escaped := true;
      } else if quote.Some? {
        current := current + [c];
        if c == quote.value {
          quote := None;
        }
      } else if c == '"' || c == '\'' {
        current := current + [c];
        quote := Some(c);
      } else if IsSpace(c) {
        if current != "" {
          tokens := tokens + [current];
          current := "";
        }
      } else {
        current := current + [c];
      }
    }
    if current != "" {
      tokens := tokens + [current];
    }
  }

  function Join(tokens: seq<string>): string {
    if tokens == [] then ""
    else if |tokens| == 1 then tokens[0]
    else tokens[0] + " " + Join(tokens[1..])
  }

  /** `token.split("=", 1)[0]` */
  function Key(token: string): string {
    if token == "" || token[0] == '=' then "" else [token[0]] + Key(token[1..])
  }

  predicate IsMediaName(name: string) {
    name in MEDIA_OPTION_KEYS
  }

  predicate IsMedia(token: string) {
    IsMediaName(Key(token))
  }

  function WithoutMedia(tokens: seq<string>): seq<string> {
    if tokens == [] then []
    else if IsMedia(tokens[0]) then WithoutMedia(tokens[1..])
    else [tokens[0]] + WithoutMedia(tokens[1..])
  }

  function StripMediaOptions(jobOptions: string): string {
    Join(WithoutMedia(Split(jobOptions)))
  }

  // ---- What a token is, without reference to the splitter ----

  /** The scanner's mode after reading all of `t`. */
  function ModeAfter(m: Mode, t: string): Mode
    decreases t
  {
    if t == "" then m else ModeAfter(Next(m, t[0]), t[1..])
  }

  /** No character of `t` separates tokens when `t` is read from mode `m`. */
  predicate Unbroken(m: Mode, t: string)
    decreases t
  {
    t == "" || (!Breaks(m, t[0]) && Unbroken(Next(m, t[0]), t[1..]))
  }

  /** A token list that can be printed and read back: every token is nonempty and
      unbroken, and all but the last have closed their quotes and escapes. */
  ghost predicate Printable(tokens: seq<string>) {
    && (forall i :: 0 <= i < |tokens| ==> tokens[i] != "" && Unbroken(FRESH, tokens[i]))
    && (forall i :: 0 <= i < |tokens| - 1 ==> ModeAfter(FRESH, tokens[i]) == FRESH)
  }

  /** The characters a splitter may drop, and those it must not. */
  function Content(s: string, m: Mode): string {
    if s == "" then ""
    else if Breaks(m, s[0]) then Content(s[1..], m)
    else [s[0]] + Content(s[1..], Next(m, s[0]))
  }

  function Flatten(tokens: seq<string>): string {
    if tokens == [] then "" else tokens[0] + Flatten(tokens[1..])
  }

  // ---- Supporting lemmas ----

  lemma {:induction false} ReadOneMore(m: Mode, t: string, c: char)
    ensures ModeAfter(m, t + [c]) == Next(ModeAfter(m, t), c)
    ensures Unbroken(m, t + [c]) <==> Unbroken(m, t) && !Breaks(ModeAfter(m, t), c)
    decreases t
  {
    if t == "" {
      assert t + [c] == [c];
    } else {
      assert (t + [c])[1..] == t[1..] + [c];
      ReadOneMore(Next(m, t[0]), t[1..], c);
    }
  }

  lemma {:induction false} SplitIsPrintable(s: string, current: string, m: Mode)
    requires Unbroken(FRESH, current) && ModeAfter(FRESH, current) == m
    ensures Printable(SplitFrom(s, current, m))
    decreases |s|
  {
    if s == "" {
    } else if Breaks(m, s[0]) {
      SplitIsPrintable(s[1..], "", m);
      var rest := SplitFrom(s[1..], "", m);
      var all := Flush(current) + rest;
      assert forall i :: 0 <= i < |rest| ==> all[i + |Flush(current)|] == rest[i];
    } else {
      ReadOneMore(FRESH, current, s[0]);
      SplitIsPrintable(s[1..], current + [s[0]], Next(m, s[0]));
    }
  }

  /** Reading an unbroken stretch only extends the token under construction. */
  lemma {:induction false} SplitReadsThrough(t: string, rest: string, current: string, m: Mode)
    requires Unbroken(m, t)
    ensures SplitFrom(t + rest, current, m) == SplitFrom(rest, current + t, ModeAfter(m, t))
    decreases |t|
  {
    if t == "" {
      assert t + rest == rest && current + t == current;
    } else {
      assert (t + rest)[1..] == t[1..] + rest;
      SplitReadsThrough(t[1..], rest, current + [t[0]], Next(m, t[0]));
      assert current + [t[0]] + t[1..] == current + t;
    }
  }

  lemma {:induction false} ReadBack(tokens: seq<string>)
    requires Printable(tokens)
    ensures Split(Join(tokens)) == tokens
    decreases |tokens|
  {
    if tokens == [] {
    } else if |tokens| == 1 {
      var t := tokens[0];
      SplitReadsThrough(t, "", "", FRESH);
      assert t + "" == t && "" + t == t;
    } else {
      var t, rest := tokens[0], tokens[1..];
      assert forall i :: 0 <= i < |rest| ==> rest[i] == tokens[i + 1];
      ReadBack(rest);
      assert Join(tokens) == t + (" " + Join(rest));
      SplitReadsThrough(t, " " + Join(rest), "", FRESH);
      assert "" + t == t && (" " + Join(rest))[1..] == Join(rest);
    }
  }

  lemma {:induction false} FilterKeepsPrintable(tokens: seq<string>)
    requires Printable(tokens)
    ensures Printable(WithoutMedia(tokens))
    ensures WithoutMedia(WithoutMedia(tokens)) == WithoutMedia(tokens)
    ensures forall t :: t in WithoutMedia(tokens) <==> t in tokens && !IsMedia(t)
    decreases |tokens|
  {
    if tokens != [] {
      var rest := tokens[1..];
      assert forall i :: 0 <= i < |rest| ==> rest[i] == tokens[i + 1];
      assert tokens == [tokens[0]] + rest;
      FilterKeepsPrintable(rest);
      var kept := WithoutMedia(rest);
      if !IsMedia(tokens[0]) {
        if kept != [] {
          assert kept[0] in rest && |rest| > 0;
        }
        assert WithoutMedia(tokens) == [tokens[0]] + kept;
        assert ([tokens[0]] + kept)[1..] == kept;
      }
    }
  }

  lemma {:induction false} FlattenFlush(current: string, rest: seq<string>)
    ensures Flatten(Flush(current) + rest) == current + Flatten(rest)
  {
    if current == "" {
      assert Flush(current) + rest == rest && current + Flatten(rest) == Flatten(rest);
    } else {
      assert (Flush(current) + rest)[1..] == rest;
    }
  }

  // ---- Main results ----

  /** Splitting what a split printed gives the same tokens back, for every input,
      an unterminated quote or a trailing backslash included. */
  lemma SplitJoinRoundTrip(s: string)
    ensures Split(Join(Split(s))) == Split(s)
  {
    SplitIsPrintable(s, "", FRESH);
    ReadBack(Split(s));
  }

  lemma {:induction false} SplitKeepsCharacters(s: string, current: string, m: Mode)
    ensures Flatten(SplitFrom(s, current, m)) == current + Content(s, m)
    decreases |s|
  {
    hide Next, Breaks, Flatten, Flush;
    if s == "" {
      FlattenFlush(current, []);
      assert Flush(current) + [] == Flush(current);
      NothingLeft();
    } else if Breaks(m, s[0]) {
      SplitKeepsCharacters(s[1..], "", m);
      FlattenFlush(current, SplitFrom(s[1..], "", m));
      assert "" + Content(s[1..], m) == Content(s[1..], m);
    } else {
      SplitKeepsCharacters(s[1..], current + [s[0]], Next(m, s[0]));
      assert current + [s[0]] + Content(s[1..], Next(m, s[0])) == current + ([s[0]] + Content(s[1..], Next(m, s[0])));
    }
  }

  lemma NothingLeft()
    ensures Flatten([]) == ""
  {
  }

  /** Nothing but separators is dropped, in order, and each token is a nonempty stretch
      with no separator in it. */
  lemma SplitKeepsContent(s: string)
    ensures Flatten(Split(s)) == Content(s, FRESH)
    ensures Printable(Split(s))
  {
    hide Printable, SplitFrom, Content;
    SplitKeepsCharacters(s, "", FRESH);
    SplitIsPrintable(s, "", FRESH);
    assert "" + Content(s, FRESH) == Content(s, FRESH);
  }

  /** Every separator cuts: up to the first one there is one token, if any text at all,
      and what follows is split by itself. */
  lemma SeparatorCuts(a: string, c: char, b: string)
    requires Unbroken(FRESH, a) && Breaks(ModeAfter(FRESH, a), c)
    ensures Split(a + [c] + b) == Flush(a) + Split(b)
  {
    assert a + [c] + b == a + ([c] + b);
    SplitReadsThrough(a, [c] + b, "", FRESH);
    assert "" + a == a && ([c] + b)[1..] == b;
  }

  lemma NothingToCut(a: string)
    requires Unbroken(FRESH, a)
    ensures Split(a) == Flush(a)
  {
    SplitReadsThrough(a, "", "", FRESH);
    assert a + "" == a && "" + a == a;
  }

  /** A function from strings to tokens that leaves an unbroken text whole, and cuts at
      the first separator of any other. */
  ghost predicate Cuts(f: string -> seq<string>) {
    && (forall a :: Unbroken(FRESH, a) ==> f(a) == Flush(a))
    && (forall a, c, b :: Unbroken(FRESH, a) && Breaks(ModeAfter(FRESH, a), c) ==> CutsAt(f, a, c, b))
  }

  predicate CutsAt(f: string -> seq<string>, a: string, c: char, b: string) {
    f(a + [c] + b) == Flush(a) + f(b)
  }

  /** How far a text goes before its first separator. */
  function FirstBreak(m: Mode, s: string): (n: nat)
    ensures n <= |s| && Unbroken(m, s[..n])
    ensures n < |s| ==> Breaks(ModeAfter(m, s[..n]), s[n])
    decreases s
  {
    if s == "" || Breaks(m, s[0]) then 0
    else
      var n := FirstBreak(Next(m, s[0]), s[1..]);
      assert s[..n + 1][1..] == s[1..][..n];
      n + 1
  }

  /** Those two facts fix the splitter: whatever meets them splits every string alike. */
  lemma {:induction false} OnlySplitCuts(f: string -> seq<string>, s: string)
    requires Cuts(f)
    ensures f(s) == Split(s)
    decreases |s|
  {
    hide Next, Breaks, Unbroken, ModeAfter, SplitFrom;
    var n := FirstBreak(FRESH, s);
    if n == |s| {
      assert s[..n] == s;
      NothingToCut(s);
    } else {
      var a, c, b := s[..n], s[n], s[n + 1..];
      assert s == a + [c] + b;
      assert CutsAt(f, a, c, b);
      SeparatorCuts(a, c, b);
      OnlySplitCuts(f, b);
    }
  }

  lemma SplitCuts()
    ensures Cuts(Split)
  {
    forall a | Unbroken(FRESH, a)
      ensures Split(a) == Flush(a)
    {
      NothingToCut(a);
    }
    forall a, c, b | Unbroken(FRESH, a) && Breaks(ModeAfter(FRESH, a), c)
      ensures CutsAt(Split, a, c, b)
    {
      SeparatorCuts(a, c, b);
    }
  }

  // ---- What keeps a text together ----

  /** Reading on where a reading stopped. */
  lemma {:induction false} ReadInTwo(m: Mode, a: string, b: string)
    ensures ModeAfter(m, a + b) == ModeAfter(ModeAfter(m, a), b)
    ensures Unbroken(m, a + b) <==> Unbroken(m, a) && Unbroken(ModeAfter(m, a), b)
    decreases a
  {
    if a == "" {
      assert a + b == b;
    } else {
      assert (a + b)[1..] == a[1..] + b;
      ReadInTwo(Next(m, a[0]), a[1..], b);
    }
  }

  predicate IsQuote(c: char) {
    c == '"' || c == '\''
  }

  /** Outside quotes, a character that is no quote and no backslash breaks the text if it
      is a space, and changes nothing. */
  lemma PlainCharacter(c: char)
    requires !IsQuote(c) && c != '\\'
    ensures ModeAfter(FRESH, [c]) == FRESH
    ensures Unbroken(FRESH, [c]) <==> !IsSpace(c)
  {
    assert [c][1..] == "";
  }

  /** Inside a quote, whatever is not that quote or a backslash is part of it. */
  lemma {:induction false} InsideQuote(q: char, t: string)
    requires IsQuote(q) && q !in t && '\\' !in t
    ensures Unbroken(Mode(Some(q), false), t) && ModeAfter(Mode(Some(q), false), t) == Mode(Some(q), false)
    decreases t
  {
    if t != "" {
      InsideQuote(q, t[1..]);
    }
  }

  /** A stretch between two equal quotes holds together and ends where it began, and so
      does what follows a quote that is never closed. */
  lemma QuotedStretch(q: char, t: string)
    requires IsQuote(q) && q !in t && '\\' !in t
    ensures Unbroken(FRESH, [q] + t) && ModeAfter(FRESH, [q] + t).quote == Some(q)
    ensures Unbroken(FRESH, [q] + t + [q]) && ModeAfter(FRESH, [q] + t + [q]) == FRESH
  {
    assert ([q] + t)[1..] == t;
    InsideQuote(q, t);
    ReadInTwo(FRESH, [q] + t, [q]);
    assert [q][1..] == "";
  }

  /** A backslash takes the next character along, whatever that is, in quotes and out. */
  lemma EscapedCharacter(quote: Option<char>, c: char)
    ensures Unbroken(Mode(quote, false), ['\\', c]) && ModeAfter(Mode(quote, false), ['\\', c]) == Mode(quote, false)
    ensures Unbroken(Mode(quote, false), ['\\'])
  {
    var m := Mode(quote, false);
    assert ['\\', c][1..] == [c] && [c][1..] == "" && ['\\'][1..] == "";
    assert ModeAfter(m, ['\\', c]) == ModeAfter(Mode(quote, true), [c]) == Next(Mode(quote, true), c);
  }

  // ---- The filter and the join ----

  /** A token is about media if it is one of the names, or one of them with a value. */
  ghost predicate NamesMedia(token: string) {
    exists name :: IsMediaName(name) && (token == name || name + "=" <= token)
  }

  lemma {:induction false} KeyOfPlain(name: string)
    requires '=' !in name
    ensures Key(name) == name
  {
    if name != "" {
      KeyOfPlain(name[1..]);
    }
  }

  lemma {:induction false} KeyOfValued(name: string, value: string)
    requires '=' !in name
    ensures Key(name + "=" + value) == name
  {
    var token := name + "=" + value;
    if name == "" {
      assert token[0] == '=';
    } else {
      assert token[1..] == name[1..] + "=" + value;
      KeyOfValued(name[1..], value);
    }
  }

  /** What comes before the first equals sign. */
  lemma {:induction false} KeyBegins(token: string)
    ensures '=' !in Key(token) && (token == Key(token) || Key(token) + "=" <= token)
  {
    if token != "" && token[0] != '=' {
      KeyBegins(token[1..]);
      var rest := Key(token[1..]);
      if token[1..] != rest {
        assert Key(token) + "=" == [token[0]] + (rest + "=");
        assert token == [token[0]] + token[1..];
      }
    }
  }

  lemma NamesArePlain()
    ensures forall name :: IsMediaName(name) ==> '=' !in name
  {
  }

  lemma IsMediaExactlyWhenNamed(token: string)
    ensures IsMedia(token) <==> NamesMedia(token)
  {
    NamesArePlain();
    hide Key, IsMediaName;
    KeyBegins(token);
    if NamesMedia(token) {
      var name :| IsMediaName(name) && (token == name || name + "=" <= token);
      if token == name {
        KeyOfPlain(name);
      } else {
        var value := token[|name| + 1..];
        assert token == name + "=" + value;
        KeyOfValued(name, value);
      }
    }
  }

  /** The filter goes token by token, in order. */
  lemma {:induction false} FilterIsTokenByToken(a: seq<string>, b: seq<string>, token: string)
    ensures WithoutMedia(a + b) == WithoutMedia(a) + WithoutMedia(b)
    ensures WithoutMedia([token]) == if NamesMedia(token) then [] else [token]
  {
    hide IsMedia, NamesMedia;
    IsMediaExactlyWhenNamed(token);
    assert [token][1..] == [];
    if a == [] {
      assert a + b == b;
    } else {
      assert (a + b)[1..] == a[1..] + b;
      FilterIsTokenByToken(a[1..], b, token);
    }
  }

  /** The tokens that are left are joined by one space each. */
  lemma {:induction false} JoinIsBySpaces(a: seq<string>, b: seq<string>, token: string)
    requires a != [] && b != []
    ensures Join(a + b) == Join(a) + " " + Join(b)
    ensures Join([token]) == token && Join([]) == ""
  {
    if |a| == 1 {
      assert (a + b)[1..] == b;
    } else {
      assert (a + b)[1..] == a[1..] + b;
      JoinIsBySpaces(a[1..], b, token);
    }
  }

  /** The stripped options read back as exactly the tokens that are not about media,
      verbatim, in order and as often as they occurred. */
  lemma StripKeepsTheRest(s: string)
    ensures Split(StripMediaOptions(s)) == WithoutMedia(Split(s))
    ensures forall t :: t in Split(StripMediaOptions(s)) <==> t in Split(s) && !NamesMedia(t)
  {
    SplitIsPrintable(s, "", FRESH);
    FilterKeepsPrintable(Split(s));
    ReadBack(WithoutMedia(Split(s)));
    hide NamesMedia, IsMedia;
    forall t {
      IsMediaExactlyWhenNamed(t);
    }
  }

  lemma StripIsIdempotent(s: string)
    ensures StripMediaOptions(StripMediaOptions(s)) == StripMediaOptions(s)
  {
    StripKeepsTheRest(s);
    SplitIsPrintable(s, "", FRESH);
    FilterKeepsPrintable(Split(s));
  }
}
