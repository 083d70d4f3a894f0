/** The query strings of modules/http: printed by http.hpp, parsed by httpd.hpp. */
module Query {
  import opened Options
  import opened Strings
  import opened Values
  import opened StringStream
  import opened Tokens

  /** What a C string shows of a string. */
  function CString(s: string): string { if s == "" || s[0] == '\0' then "" else [s[0]] + CString(s[1..]) }

  /** A backslash comes before each quote and backslash. */
  function Escaped(s: string): string {
    if s == "" || s[0] == '\0' then ""
    else (if s[0] == '\\' || s[0] == '\"' then ['\\', s[0]] else [s[0]]) + Escaped(s[1..])
  }

  /** What a stream prints: a symbol as it is, a string in quotes; show prints numbers and lists. */
  function KeyText(v: Value, show: Value -> string): string {
    match v
    case Symbol(s) => s
    case Str(s) => "\"" + (Escaped(s) + "\"")
    case Boolean(b) => if b then "true" else "false"
    case Nil => "nil"
    case _ => show(v)
  }

  /** The conversion of a value to a string; show prints numbers. */
  function ValueText(v: Value, show: Value -> string): string {
    match v
    case Symbol(s) => s
    case Str(s) => s
    case Boolean(b) => if b then "true" else "false"
    case Num(_) => show(v)
    case _ => ""
  }

  predicate IsArg(v: Value) { v.Lst? && v.items.Cons? && v.items.cdr.Cons? }

  function ArgText(arg: Value, show: Value -> string): string
    requires IsArg(arg)
  {
    KeyText(arg.items.car, show) + ("=" + CString(ValueText(arg.items.cdr.car, show)))
  }

  /** Arguments without a key and a value are skipped, but they count as following ones. */
  function QueryText(args: List, show: Value -> string): string {
    if args.Null? then ""
    else if !IsArg(args.car) then QueryText(args.cdr, show)
    else ArgText(args.car, show) + ((if args.cdr.Cons? then "&" else "") + QueryText(args.cdr, show))
  }

  method WriteQuery(args: List, show: Value -> string, os: OStringStream)
    requires os.Valid()
    modifies os, os.accumbuf
    ensures os.Valid() && os.Contents() == old(os.Contents()) + QueryText(args, show)
    ensures os.accumbuf == null || os.accumbuf == old(os.accumbuf) || fresh(os.accumbuf)
    decreases args
  {
    if args.Null? { return; }
    if !IsArg(args.car) {
      WriteQuery(args.cdr, show, os);
      return;
    }
    WriteArg(args.car, args.cdr.Cons?, show, os);
    ghost var sep := if args.cdr.Cons? then "&" else "";
    Rejoin(ArgText(args.car, show), sep, QueryText(args.cdr, show));
    Rejoin(old(os.Contents()), ArgText(args.car, show) + sep, QueryText(args.cdr, show));
    WriteQuery(args.cdr, show, os);
  }

  method WriteArg(arg: Value, more: bool, show: Value -> string, os: OStringStream)
    requires IsArg(arg) && os.Valid()
    modifies os, os.accumbuf
    ensures os.Valid() && os.Contents() == old(os.Contents()) + (ArgText(arg, show) + if more then "&" else "")
    ensures os.accumbuf == null || os.accumbuf == old(os.accumbuf) || fresh(os.accumbuf)
  {
    var key, text := KeyText(arg.items.car, show), CString(ValueText(arg.items.cdr.car, show));
    ghost var before := os.Contents();
    Rejoin(before, key, "=" + text);
    Rejoin(before + key, "=", text);
    os.Write(key);
    os.Write("=");
    os.Write(text);
    if more {
      os.Write("&");
      Rejoin(before, ArgText(arg, show), "&");
    }
  }

  method QueryString(args: List, show: Value -> string) returns (s: string)
    ensures s == QueryText(args, show)
  {
    var os := new OStringStream();
    WriteQuery(args, show, os);
    s := os.Str();
  }

  // --- Parsing ------------------------------------------------------------------------------

  /** The pair in a token; an empty token has no first part to take, and aborts. */
  function QueryArg(s: string): Option<Value> {
    var t := Tokenize("=", s);
    if t == [] then None
    else if |t| == 1 then Some(Pair(Symbol(CString(t[0])), Str("")))
    else Some(Pair(Symbol(CString(t[0])), Str(t[1])))
  }

  function FixupQueryArgs(a: string): string {
    var t := Tokenize("?", a);
    if |t| <= 1 then a else Joined("&", t)
  }

  function MapQueryArg(l: seq<string>): Option<List> {
    if l == [] then Some(Null)
    else
      var first, rest := QueryArg(l[0]), MapQueryArg(l[1..]);
      if first.None? || rest.None? then None else Some(Cons(first.value, rest.value))
  }

  function QueryArgs(a: string): Option<List> { MapQueryArg(Tokenize("&", FixupQueryArgs(a))) }

  /** Between parts, a question mark counts as an ampersand. */
  lemma {:induction false} FixupReplaces(a: string)
    requires NoZero(a)
    ensures FixupQueryArgs(a)
         == if |Tokenize("?", a)| <= 1 then a else Replaced(WithoutLast(a, '?'), '?', '&')
  {
    JoinedTokens('?', '&', a);
  }

  // --- Parsing what was printed -------------------------------------------------------------

  predicate Clean(s: string) { Plain(s, '=') && Plain(s, '&') && Plain(s, '?') }

  /** Its key and its value print without the characters that mean something in a query. */
  predicate CleanArg(arg: Value, show: Value -> string)
    requires IsArg(arg)
  {
    Clean(KeyText(arg.items.car, show)) && Clean(ValueText(arg.items.cdr.car, show))
  }

  /** Malformed arguments may be anything. */
  predicate CleanArgs(args: List, show: Value -> string) {
    args.Null? || ((IsArg(args.car) ==> CleanArg(args.car, show)) && CleanArgs(args.cdr, show))
  }

  function PairsOf(args: List, show: Value -> string): List {
    if args.Null? then Null
    else if !IsArg(args.car) then PairsOf(args.cdr, show)
    else
      var key, val := KeyText(args.car.items.car, show), ValueText(args.car.items.cdr.car, show);
      Cons(Pair(Symbol(key), Str(val)), PairsOf(args.cdr, show))
  }

  /** The texts the query is joined from: an empty one is last when only malformed arguments follow. */
  function Pieces(args: List, show: Value -> string): seq<string> {
    if args.Null? then []
    else if !IsArg(args.car) then Pieces(args.cdr, show)
    else if args.cdr.Null? then [ArgText(args.car, show)]
    else if Pieces(args.cdr, show) == [] then [ArgText(args.car, show), ""]
    else [ArgText(args.car, show)] + Pieces(args.cdr, show)
  }

  lemma {:induction false} QueryIsJoined(args: List, show: Value -> string)
    ensures QueryText(args, show) == Joined("&", Pieces(args, show))
  {
    if args.Cons? {
      QueryIsJoined(args.cdr, show);
      if IsArg(args.car) {
        var text, rest := ArgText(args.car, show), Pieces(args.cdr, show);
        if args.cdr.Null? {
          JoinedOne("&", text);
        } else if rest == [] {
          JoinedMore("&", [text, ""]);
          JoinedOne("&", "");
          assert [text, ""][1..] == [""];
        } else {
          JoinedMore("&", [text] + rest);
          assert ([text] + rest)[1..] == rest;
        }
      }
    }
  }

  lemma {:induction false} PlainAppend(s: string, t: string, c: char)
    requires Plain(s, c) && Plain(t, c)
    ensures Plain(s + t, c)
  {
    if s == "" {
      assert s + t == t;
    } else {
      TailOfAppend(s, t);
      PlainAppend(s[1..], t, c);
    }
  }

  lemma {:induction false} CStringLaws(s: string)
    ensures var c := CString(s);
            |c| <= |s| && s[..|c|] == c && NoZero(c) && (|c| < |s| ==> s[|c|] == '\0')
    ensures NoZero(s) ==> CString(s) == s
  {
    if s != "" { CStringLaws(s[1..]); }
  }

  lemma {:induction false} CStringPlain(s: string, c: char)
    requires Plain(s, c)
    ensures CString(s) == s
  {
    PlainIsNoZero(s, c);
    CStringLaws(s);
  }

  lemma {:induction false} ArgIsPlain(arg: Value, show: Value -> string, c: char)
    requires IsArg(arg) && CleanArg(arg, show) && (c == '&' || c == '?')
    ensures Plain(ArgText(arg, show), c) && ArgText(arg, show) != ""
  {
    var key, val := KeyText(arg.items.car, show), ValueText(arg.items.cdr.car, show);
    CStringPlain(val, c);
    PlainAppend("=", val, c);
    PlainAppend(key, "=" + val, c);
  }

  /** A key with an equals sign of its own is cut there. */
  lemma {:induction false} KeyIsCutAtEquals(t: string, rest: string)
    requires Plain(t, '=')
    ensures QueryArg(t + ("=" + rest)).Some?
    ensures QueryArg(t + ("=" + rest)).value.items.car == Symbol(t)
  {
    CStringPlain(t, '=');
    TokenizeStep(t, '=', rest);
  }

  /** So is a value with an equals sign of its own. */
  lemma {:induction false} ValueIsCutAtEquals(key: string, t: string, rest: string)
    requires Plain(key, '=') && Plain(t, '=')
    ensures QueryArg(key + ("=" + (t + ("=" + rest)))) == Some(Pair(Symbol(key), Str(t)))
    ensures t != t + ("=" + rest)
  {
    CStringPlain(key, '=');
    TokenizeStep(key, '=', t + ("=" + rest));
    TokenizeStep(t, '=', rest);
    assert |t + ("=" + rest)| > |t|;
  }

  lemma {:induction false} TextIsParsed(key: string, val: string)
    requires Plain(key, '=') && Plain(val, '=')
    ensures QueryArg(key + ("=" + val)) == Some(Pair(Symbol(key), Str(val)))
  {
    CStringPlain(key, '=');
    TokenizeStep(key, '=', val);
    FindNone(val, '=');
  }

  /** A key and a value that print without zero characters come back from a printed argument exactly
      when neither has an equals sign, whatever other characters they have. */
  lemma {:induction false} ArgIsParsedIff(arg: Value, show: Value -> string)
    requires IsArg(arg)
    requires NoZero(KeyText(arg.items.car, show)) && NoZero(ValueText(arg.items.cdr.car, show))
    ensures var key, val := KeyText(arg.items.car, show), ValueText(arg.items.cdr.car, show);
            QueryArg(ArgText(arg, show)) == Some(Pair(Symbol(key), Str(val))) <==> Plain(key, '=') && Plain(val, '=')
  {
    var key, val := KeyText(arg.items.car, show), ValueText(arg.items.cdr.car, show);
    CStringLaws(val);
    var t, more, rest := FirstToken(key, '=');
    if more {
      SeparatorIsNotPlain(t, '=', rest);
      Rejoin(t, "=" + rest, "=" + val);
      Rejoin("=", rest, "=" + val);
      KeyIsCutAtEquals(t, rest + ("=" + val));
      assert |t| < |key|;
    } else {
      var u, more', rest' := FirstToken(val, '=');
      if more' {
        SeparatorIsNotPlain(u, '=', rest');
        ValueIsCutAtEquals(key, u, rest');
      } else {
        TextIsParsed(key, val);
      }
    }
  }

  lemma {:induction false} QueryIsPlain(args: List, show: Value -> string)
    requires CleanArgs(args, show)
    ensures Plain(QueryText(args, show), '?')
  {
    if args.Cons? {
      QueryIsPlain(args.cdr, show);
      if IsArg(args.car) {
        ArgIsPlain(args.car, show, '?');
        PlainAppend(if args.cdr.Cons? then "&" else "", QueryText(args.cdr, show), '?');
        PlainAppend(ArgText(args.car, show), (if args.cdr.Cons? then "&" else "") + QueryText(args.cdr, show), '?');
      }
    }
  }

  /** Without their last empty one, the pieces are parsed to the pairs. */
  lemma {:induction false} PiecesAreParsed(args: List, show: Value -> string)
    requires CleanArgs(args, show)
    ensures AllPlain(Pieces(args, show), '&')
    ensures Pieces(args, show) != [] ==> Pieces(args, show)[0] != ""
    ensures MapQueryArg(Kept(Pieces(args, show))) == Some(PairsOf(args, show))
  {
    if args.Cons? {
      PiecesAreParsed(args.cdr, show);
      if IsArg(args.car) {
        var text, rest := ArgText(args.car, show), Pieces(args.cdr, show);
        ArgIsPlain(args.car, show, '&');
        PlainIsNoZero(KeyText(args.car.items.car, show), '=');
        PlainIsNoZero(ValueText(args.car.items.cdr.car, show), '=');
        ArgIsParsedIff(args.car, show);
        var l := if args.cdr.Null? then [text] else if rest == [] then [text, ""] else [text] + rest;
        if args.cdr.Null? {
          assert AllPlain([text][1..], '&');
        } else {
          KeptRest(l);
          assert l[1..] == if rest == [] then [""] else rest;
        }
      }
    }
  }

  /** A printed query is parsed to its well-formed arguments in order, whatever malformed ones
      were skipped and even when they leave an ampersand at the end. */
  lemma {:induction false} ParsedIsPrinted(args: List, show: Value -> string)
    requires CleanArgs(args, show)
    ensures QueryArgs(QueryText(args, show)) == Some(PairsOf(args, show))
  {
    var a := QueryText(args, show);
    QueryIsPlain(args, show);
    FindNone(a, '?');
    QueryIsJoined(args, show);
    PiecesAreParsed(args, show);
    TokenizeJoined('&', Pieces(args, show));
  }

  /** The arguments whose keys are symbols and whose values are texts. */
  predicate TextArgs(args: List) {
    args.Null? ||
    ((IsArg(args.car) ==> args.car.items.car.Symbol? && IsText(args.car.items.cdr.car)) && TextArgs(args.cdr))
  }

  function TextPairs(args: List): List
    requires TextArgs(args)
  {
    if args.Null? then Null
    else if !IsArg(args.car) then TextPairs(args.cdr)
    else Cons(Pair(Symbol(args.car.items.car.str), Str(args.car.items.cdr.car.str)), TextPairs(args.cdr))
  }

  lemma {:induction false} PairsOfTexts(args: List, show: Value -> string)
    requires TextArgs(args)
    ensures PairsOf(args, show) == TextPairs(args)
  {
    if args.Cons? { PairsOfTexts(args.cdr, show); }
  }

  /** Symbols and texts come back as they are, whatever else prints how. */
  lemma {:induction false} TextsComeBack(args: List, show: Value -> string)
    requires TextArgs(args) && CleanArgs(args, show)
    ensures QueryArgs(QueryText(args, show)) == Some(TextPairs(args))
  {
    ParsedIsPrinted(args, show);
    PairsOfTexts(args, show);
  }

  /** Only an empty part has no first token to take. */
  lemma {:induction false} EmptyPartAborts(s: string)
    ensures QueryArg(s).None? <==> s == ""
  {
    TokenizeOfNothing("=", s);
  }

  // --- Strings for keys ---------------------------------------------------------------------

  /** What a reader makes of escaped characters. */
  function Unescaped(s: string): string {
    if s == "" then ""
    else if s[0] == '\\' && |s| > 1 then [s[1]] + Unescaped(s[2..])
    else [s[0]] + Unescaped(s[1..])
  }

  lemma {:induction false} UnescapedEscaped(s: string)
    requires NoZero(s)
    ensures Unescaped(Escaped(s)) == s
  {
    if s != "" {
      UnescapedEscaped(s[1..]);
      var e, rest := Escaped(s), Escaped(s[1..]);
      if s[0] == '\\' || s[0] == '\"' {
        assert e == ['\\', s[0]] + rest && e[2..] == rest;
      } else {
        assert e == [s[0]] + rest && e[1..] == rest;
      }
    }
  }

  /** A string key comes back as the symbol of its quoted text, from which it can be read. */
  lemma {:induction false} StringKeyComesBackQuoted(key: string, val: Value, show: Value -> string) returns (e: string)
    requires NoZero(key) && IsText(val) && Plain(val.str, '=') && Plain(Escaped(key), '=')
    ensures Unescaped(e) == key
    ensures QueryArg(ArgText(Pair(Str(key), val), show)) == Some(Pair(Symbol("\"" + (e + "\"")), Str(val.str)))
  {
    e := Escaped(key);
    UnescapedEscaped(key);
    PlainAppend(e, "\"", '=');
    PlainAppend("\"", e + "\"", '=');
    PlainIsNoZero("\"" + (e + "\""), '=');
    PlainIsNoZero(val.str, '=');
    ArgIsParsedIff(Pair(Str(key), val), show);
  }

  /** Truth values print as words, and anything without a text as nothing. */
  lemma {:induction false} WordsForValues(show: Value -> string)
    ensures ArgText(Pair(Symbol("k"), Boolean(true)), show) == "k=true"
    ensures ArgText(Pair(Symbol("k"), Boolean(false)), show) == "k=false"
    ensures ArgText(Pair(Symbol("k"), Nil), show) == "k="
    ensures ArgText(Pair(Boolean(true), Nil), show) == "true="
    ensures ArgText(Pair(Boolean(false), Nil), show) == "false="
    ensures ArgText(Pair(Nil, Nil), show) == "nil="
  {
    CStringLaws("true");
    CStringLaws("false");
    assert NoZero("true") && NoZero("false");
  }
}
