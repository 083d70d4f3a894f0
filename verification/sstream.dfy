/** Facts on concatenated strings. */
module Strings {

  lemma Rejoin(a: string, b: string, c: string)
    ensures a + (b + c) == (a + b) + c
  {
  }

  lemma TailOfAppend(a: string, b: string)
    requires a != ""
    ensures (a + b)[0] == a[0] && (a + b)[1..] == a[1..] + b
  {
  }
}

/** The char buffer based output stream of kernel/sstream.hpp. */
module StringStream {
  import opened Strings

  /** The text of a list of strings whose first is the latest. */
  function Text(l: seq<string>): string { if l == [] then "" else Text(l[1..]) + l[0] }

  function TotalLength(l: seq<string>): (n: nat)
    ensures n == |Text(l)|
  {
    if l == [] then 0 else TotalLength(l[1..]) + |l[0]|
  }

  lemma TextCons(s: string, l: seq<string>)
    ensures Text([s] + l) == Text(l) + s && TotalLength([s] + l) == TotalLength(l) + |s|
  {
    assert ([s] + l)[1..] == l;
  }

  /** Copies a list of strings into a buffer backward from its end; what lies outside the list's
      length is left alone. */
  method WriteList(l: seq<string>, sbuf: array<char>, end: nat)
    requires TotalLength(l) <= end <= sbuf.Length
    modifies sbuf
    ensures sbuf[..] == old(sbuf[..end - TotalLength(l)]) + Text(l) + old(sbuf[end..])
    decreases |l|
  {
    if l == [] { return; }
    var c := l[0];
    var b := end - |c|;
    forall k | 0 <= k < |c| { sbuf[b + k] := c[k]; }
    assert sbuf[..] == old(sbuf[..b]) + c + old(sbuf[end..]);
    WriteList(l[1..], sbuf, b);
  }

  /** Appends characters in chunks of 64, which it keeps in a list with the latest first. */
  class OStringStream {
    var len: nat
    var accumbuf: array?<char>
    var accumlen: nat
    var buf: seq<string>

    ghost predicate Chunked()
      reads this
    {
      && (accumbuf == null ==> accumlen == 0)
      && (accumbuf != null ==> accumbuf.Length == 65 && accumlen < 64)
    }

    /** The length counts every spilled and every accumulated character. */
    ghost predicate Valid()
      reads this
    {
      Chunked() && len == TotalLength(buf) + accumlen
    }

    /** All that has been written. */
    ghost function Contents(): (s: string)
      requires Chunked()
      reads this, accumbuf
      ensures |s| == TotalLength(buf) + accumlen
    {
      Text(buf) + if accumbuf == null then "" else accumbuf[..accumlen]
    }

    constructor ()
      ensures Valid() && Contents() == "" && accumbuf == null
    {
      len, accumbuf, accumlen, buf := 0, null, 0, [];
    }

    /** One turn of the loop: a full chunk goes to the list, and a new one is begun. */
    method AccumulateOne(c: char)
      requires accumbuf != null && Chunked()
      modifies this`accumbuf, this`accumlen, this`buf, accumbuf
      ensures accumbuf != null && Chunked() && Contents() == old(Contents()) + [c]
      ensures accumbuf == old(accumbuf) || fresh(accumbuf)
      ensures if old(accumlen) == 63
              then accumlen == 0 && |buf| == |old(buf)| + 1 && |buf[0]| == 64 && buf[1..] == old(buf)
              else accumlen == old(accumlen) + 1 && buf == old(buf)
    {
      ghost var before := accumbuf[..accumlen];
      accumbuf[accumlen] := c;
      accumlen := accumlen + 1;
      assert accumbuf[..accumlen] == before + [c];
      assert Text(buf) + (before + [c]) == old(Contents()) + [c];
      if accumlen == 64 {
        accumbuf[accumlen] := '\0';
        TextCons(accumbuf[..accumlen], buf);
        buf := [accumbuf[..accumlen]] + buf;
        accumbuf := new char[65];
        accumlen := 0;
      }
    }

    method Accumulate(c: string)
      requires Valid()
      modifies this, accumbuf
      ensures Valid() && Contents() == old(Contents()) + c
      ensures accumbuf != null && (accumbuf == old(accumbuf) || fresh(accumbuf))
    {
      if accumbuf == null { accumbuf := new char[65]; }
      for i := 0 to |c|
        invariant accumbuf != null && (accumbuf == old(accumbuf) || fresh(accumbuf))
        invariant Chunked() && len == old(len) && Contents() == old(Contents()) + c[..i]
      {
        AccumulateOne(c[i]);
        assert c[..i + 1] == c[..i] + [c[i]];
      }
      assert c[..|c|] == c;
      accumbuf[accumlen] := '\0';
      assert Contents() == old(Contents()) + c;
      len := len + |c|;
    }

    method Spill()
      requires Valid()
      modifies this
      ensures Valid() && Contents() == old(Contents()) && accumbuf == null
    {
      if accumbuf == null { return; }
      TextCons(accumbuf[..accumlen], buf);
      buf := [accumbuf[..accumlen]] + buf;
      accumbuf := null;
      accumlen := 0;
    }

    /** A string of more than 256 characters is not copied in chunks. */
    method Write(s: string)
      requires Valid()
      modifies this, accumbuf
      ensures Valid() && Contents() == old(Contents()) + s
      ensures accumbuf == null || accumbuf == old(accumbuf) || fresh(accumbuf)
      ensures |s| > 256 ==> accumbuf == null && buf != [] && buf[0] == s
      ensures |s| <= 256 ==> accumbuf != null
    {
      if |s| <= 256 {
        Accumulate(s);
        return;
      }
      Spill();
      TextCons(s, buf);
      buf := [s] + buf;
      len := len + |s|;
    }

    method WriteChar(c: char)
      requires Valid()
      modifies this, accumbuf
      ensures Valid() && Contents() == old(Contents()) + [c]
      ensures accumbuf == null || accumbuf == old(accumbuf) || fresh(accumbuf)
    {
      Accumulate([c]);
    }

    method Flush()
      requires Valid()
      modifies this
      ensures Valid() && Contents() == old(Contents()) && accumbuf == null
    {
      Spill();
    }

    /** All that was written; the stream goes on as if not read. */
    method Str() returns (s: string)
      requires Valid()
      modifies this
      ensures Valid() && Contents() == old(Contents()) && accumbuf == null
      ensures s == Contents()
    {
      Spill();
      if buf == [] { return ""; }
      var sbuf := new char[len + 1];
      WriteList(buf, sbuf, len);
      sbuf[len] := '\0';
      s := sbuf[..len];
    }
  }

  // --- Every run of a stream ----------------------------------------------------------------

  datatype Call = WriteString(s: string) | WriteOne(c: char) | FlushCall | StrCall

  /** What a call writes. */
  function Written(call: Call): string {
    match call
    case WriteString(s) => s
    case WriteOne(c) => [c]
    case _ => ""
  }

  function AllWritten(calls: seq<Call>): string {
    if calls == [] then "" else Written(calls[0]) + AllWritten(calls[1..])
  }

  method Perform(os: OStringStream, call: Call) returns (answer: string)
    requires os.Valid()
    modifies os, os.accumbuf
    ensures os.Valid() && os.Contents() == old(os.Contents()) + Written(call)
    ensures os.accumbuf == null || os.accumbuf == old(os.accumbuf) || fresh(os.accumbuf)
    ensures call.StrCall? ==> answer == os.Contents()
  {
    answer := "";
    match call {
      case WriteString(s) => os.Write(s);
      case WriteOne(c) => os.WriteChar(c);
      case FlushCall => os.Flush();
      case StrCall => answer := os.Str();
    }
  }

  /** Each str answers all that was written before it. */
  predicate Answered(before: string, calls: seq<Call>, answers: seq<string>)
    decreases |calls|
  {
    && |answers| == |calls|
    && (calls != [] ==>
        && (calls[0].StrCall? ==> answers[0] == before)
        && Answered(before + Written(calls[0]), calls[1..], answers[1..]))
  }

  /** Any calls on a stream, in any order: the chunks, the flushes and the reads leave no trace in
      what is read. */
  method PerformAll(os: OStringStream, calls: seq<Call>) returns (answers: seq<string>)
    requires os.Valid()
    modifies os, os.accumbuf
    ensures os.Valid() && os.Contents() == old(os.Contents()) + AllWritten(calls)
    ensures os.accumbuf == null || os.accumbuf == old(os.accumbuf) || fresh(os.accumbuf)
    ensures Answered(old(os.Contents()), calls, answers)
    decreases |calls|
  {
    if calls == [] { return []; }
    Rejoin(os.Contents(), Written(calls[0]), AllWritten(calls[1..]));
    var answer := Perform(os, calls[0]);
    var rest := PerformAll(os, calls[1..]);
    answers := [answer] + rest;
    assert answers[1..] == rest;
  }

  /** So the k-th call, if it is a str, answers exactly what the calls before it wrote. */
  lemma {:induction false} StrAnswers(before: string, calls: seq<Call>, answers: seq<string>, k: nat)
    requires Answered(before, calls, answers) && k < |calls| && calls[k].StrCall?
    ensures answers[k] == before + AllWritten(calls[..k])
    decreases |calls|
  {
    if k > 0 {
      StrAnswers(before + Written(calls[0]), calls[1..], answers[1..], k - 1);
      assert calls[1..][..k - 1] == calls[..k][1..];
      Rejoin(before, Written(calls[0]), AllWritten(calls[..k][1..]));
    }
  }
}
