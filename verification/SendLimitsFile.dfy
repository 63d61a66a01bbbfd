// The file of daily send limits (internal/mail/maps.go, lines 209-219; internal/mail/policy.go, lines 14-38), printed and parsed again.
module SendLimitsFile {
  import opened GoText
  import opened SharedTypes

  datatype LimitRow = LimitRow(address: string, account: string, limit: int)

  // ---------- numbers ----------

  function Digits(n: nat): (s: string)
    ensures s != ""
  {
    if n < 10 then [('0' as int + n) as char] else Digits(n / 10) + [('0' as int + n % 10) as char]
  }

  function Itoa(n: int): string { if n < 0 then "-" + Digits(-n) else Digits(n) }

  predicate IsNumber(s: string) { s != "" && forall c :: c in s ==> '0' <= c <= '9' }

  function Value(s: string): nat
    requires forall c :: c in s ==> '0' <= c <= '9'
  {
    if s == "" then 0 else
      var k := |s| - 1;
      assert s[k] in s && forall c :: c in s[..k] ==> c in s;
      10 * Value(s[..k]) + (s[k] as int - '0' as int)
  }

  function Atoi(s: string): Option<int> {
    if s != "" && (s[0] == '-' || s[0] == '+') then
      if IsNumber(s[1..]) then Some(if s[0] == '-' then 0 - Value(s[1..]) else Value(s[1..])) else None
    else if IsNumber(s) then Some(Value(s)) else None
  }

  lemma {:induction false} DigitsBack(n: nat)
    ensures IsNumber(Digits(n)) && Value(Digits(n)) == n
  {
    if n >= 10 {
      DigitsBack(n / 10);
      var d := ('0' as int + n % 10) as char;
      assert Digits(n) == Digits(n / 10) + [d];
      assert Digits(n)[..|Digits(n)| - 1] == Digits(n / 10);
    } else {
      var d := ('0' as int + n) as char;
      assert Digits(n) == [d] && [d][..0] == "";
    }
  }

  lemma AtoiItoa(n: int)
    ensures Atoi(Itoa(n)) == Some(n) && IsWord(Itoa(n))
  {
    var m := if n < 0 then -n else n;
    DigitsBack(m);
    assert Digits(m)[0] in Digits(m);
    if n < 0 {
      assert Itoa(n)[1..] == Digits(m);
    }
  }

  // ---------- words and lines ----------

  predicate IsWord(s: string) { s != "" && forall c :: c in s ==> !IsSpace(c) }

  function WordLength(s: string): (n: nat)
    ensures n <= |s| && (forall i :: 0 <= i < n ==> !IsSpace(s[i])) && (n < |s| ==> IsSpace(s[n]))
  {
    if s == "" || IsSpace(s[0]) then 0 else 1 + WordLength(s[1..])
  }

  // strings.Fields
  function Fields(s: string): (r: seq<string>)
    decreases |s|
  {
    if s == "" then []
    else if IsSpace(s[0]) then Fields(s[1..])
    else
      var n := WordLength(s);
      [s[..n]] + Fields(s[n..])
  }

  lemma {:induction false} FieldsAreWords(s: string)
    ensures forall w :: w in Fields(s) ==> IsWord(w)
    decreases |s|
  {
    if s != "" {
      if IsSpace(s[0]) {
        FieldsAreWords(s[1..]);
      } else {
        FieldsAreWords(s[WordLength(s)..]);
      }
    }
  }

  lemma FieldsCons(w: string, rest: string)
    requires IsWord(w) && (rest == "" || IsSpace(rest[0]))
    ensures Fields(w + rest) == [w] + Fields(rest)
  {
    var s := w + rest;
    assert s[0] == w[0] && w[0] in w;
    assert WordLength(s) == |w| by {
      assert forall i :: 0 <= i < |w| ==> s[i] == w[i] && w[i] in w;
      assert rest != "" ==> s[|w|] == rest[0];
    }
    assert s[..|w|] == w && s[|w|..] == rest;
  }

  lemma FieldsSkip(rest: string)
    ensures Fields(" " + rest) == Fields(rest)
  {
    assert (" " + rest)[1..] == rest;
  }

  // Trimming takes nothing from the words.
  lemma {:induction false} FieldsOfTrimmed(s: string)
    ensures Fields(TrimSpace(s)) == Fields(s)
    decreases |s|
  {
    if s != "" {
      if IsSpace(s[0]) {
        FieldsOfTrimmed(s[1..]);
      } else if IsSpace(s[|s| - 1]) {
        FieldsOfTrimmed(s[..|s| - 1]);
        SpaceAtEnd(s[..|s| - 1], s[|s| - 1]);
        assert s == s[..|s| - 1] + [s[|s| - 1]];
      }
    }
  }

  lemma FirstWord(s: string, c: char)
    requires s != "" && !IsSpace(s[0]) && IsSpace(c)
    ensures Fields(s + [c]) == [s[..WordLength(s)]] + Fields(s[WordLength(s)..] + [c])
  {
    var w, rest := s[..WordLength(s)], s[WordLength(s)..];
    hide Fields;
    assert IsWord(w);
    FieldsCons(w, rest + [c]);
    assert s + [c] == w + (rest + [c]);
  }

  lemma {:induction false} SpaceAtEnd(s: string, c: char)
    requires IsSpace(c)
    ensures Fields(s + [c]) == Fields(s)
    decreases |s|
  {
    if s == "" {
      assert ("" + [c])[1..] == "";
    } else if IsSpace(s[0]) {
      SpaceAtEnd(s[1..], c);
      assert (s + [c])[1..] == s[1..] + [c];
    } else {
      SpaceAtEnd(s[WordLength(s)..], c);
      FirstWord(s, c);
    }
  }

  // ---------- the limits file ----------

  const HEADER := "# sender " + "account " + "daily_limit " + "— generated" + ", do not edit"

  function Line(r: Recipient): string { r.address + " " + r.account + " " + Itoa(r.dailyLimit) }

  function RowLines(recs: seq<Recipient>): string {
    if recs == [] then "" else (if recs[0].account == "" then "" else Line(recs[0]) + "\n") + RowLines(recs[1..])
  }

  // What one line says, if anything.
  function ParseLine(line: string): Option<LimitRow> {
    var t := TrimSpace(line);
    if t == "" || HasPrefix(t, "#") then None
    else
      var fields := Fields(t);
      if |fields| < 3 then None
      else match Atoi(fields[2]) case None => None case Some(n) => Some(LimitRow(ToLower(fields[0]), fields[1], n))
  }

  function RowOf(r: Recipient): LimitRow { LimitRow(ToLower(r.address), r.account, r.dailyLimit) }

  function RowsOf(recs: seq<Recipient>): seq<LimitRow> {
    if recs == [] then [] else (if recs[0].account == "" then [] else [RowOf(recs[0])]) + RowsOf(recs[1..])
  }

  function RowIn(line: string): seq<LimitRow> {
    match ParseLine(line) case None => [] case Some(row) => [row]
  }

  function ParsedLines(lines: seq<string>): seq<LimitRow> {
    if lines == [] then [] else
      var k := |lines| - 1;
      ParsedLines(lines[..k]) + RowIn(lines[k])
  }

  method SendLimits(recs: seq<Recipient>) returns (body: string)
    ensures body == HEADER + "\n" + RowLines(recs)
  {
    body := HEADER + "\n";
    hide HEADER, Line;
    for i := 0 to |recs|
      invariant body + RowLines(recs[i..]) == HEADER + "\n" + RowLines(recs)
    {
      assert recs[i..][1..] == recs[i + 1..];
      if recs[i].account != "" {
        body := body + Line(recs[i]) + "\n";
      }
    }
  }

  method ParseSendLimits(body: string) returns (rows: seq<LimitRow>)
    ensures rows == ParsedLines(Split(body, '\n'))
  {
    hide ParsedLines, Fields, Atoi, TrimSpace, Split;
    var lines := Split(body, '\n');
    rows := [];
    NothingParsed(lines);
    for i := 0 to |lines|
      invariant rows == ParsedLines(lines[..i])
    {
      LastLine(lines[..i], lines[i]);
      assert lines[..i + 1] == lines[..i] + [lines[i]];
      var line := TrimSpace(lines[i]);
      if line == "" || HasPrefix(line, "#") {
        continue;
      }
      var fields := Fields(line);
      if |fields| < 3 {
        continue;
      }
      var n := Atoi(fields[2]);
      if n.None? {
        continue;
      }
      rows := rows + [LimitRow(ToLower(fields[0]), fields[1], n.value)];
    }
    assert lines[..|lines|] == lines;
  }

  predicate Printable(r: Recipient) { IsWord(r.address) && IsWord(r.account) && r.address[0] != '#' }

  lemma LineFields(r: Recipient)
    requires IsWord(r.address) && IsWord(r.account)
    ensures Fields(Line(r)) == [r.address, r.account, Itoa(r.dailyLimit)]
  {
    hide Fields;
    var n := Itoa(r.dailyLimit);
    AtoiItoa(r.dailyLimit);
    FieldsCons(n, "");
    assert n + "" == n && Fields("") == [] by { NoFields(); }
    FieldsSkip(n);
    FieldsCons(r.account, " " + n);
    FieldsSkip(r.account + " " + n);
    assert r.account + (" " + n) == r.account + " " + n;
    FieldsCons(r.address, " " + (r.account + " " + n));
    assert r.address + (" " + (r.account + " " + n)) == Line(r);
  }

  lemma NoFields()
    ensures Fields("") == []
  {
  }

  lemma TrimmedStart(s: string)
    requires s != "" && !IsSpace(s[0])
    ensures TrimSpace(s) != "" && TrimSpace(s)[0] == s[0]
    decreases |s|
  {
    if IsSpace(s[|s| - 1]) {
      TrimmedStart(s[..|s| - 1]);
    }
  }

  lemma LowerSpaces(s: string)
    ensures |ToLower(s)| == |s| && forall i :: 0 <= i < |s| ==> (IsSpace(ToLower(s)[i]) <==> IsSpace(s[i]))
  {
  }

  lemma LowerWord(s: string, w: string)
    requires IsWord(w) && ToLower(w) == ToLower(s)
    ensures IsWord(s)
  {
    LowerSpaces(s);
    LowerSpaces(w);
    forall i | 0 <= i < |s|
      ensures !IsSpace(s[i])
    {
      assert w[i] in w && IsSpace(ToLower(s)[i]) == IsSpace(ToLower(w)[i]);
    }
  }

  // A recipient's line is read back as the recipient's row exactly when its address and account are words and the line is no comment.
  lemma LineReadIff(r: Recipient)
    ensures ParseLine(Line(r)) == Some(RowOf(r)) <==> Printable(r)
  {
    hide Fields, TrimSpace, Itoa, Atoi;
    var t := TrimSpace(Line(r));
    FieldsOfTrimmed(Line(r));
    if IsWord(r.address) && IsWord(r.account) {
      assert r.address[0] in r.address && Line(r)[0] == r.address[0];
      TrimmedStart(Line(r));
      LineFields(r);
      AtoiItoa(r.dailyLimit);
    } else if ParseLine(Line(r)) == Some(RowOf(r)) {
      FieldsAreWords(t);
      assert Fields(t)[0] in Fields(t) && Fields(t)[1] in Fields(t);
      LowerWord(r.address, Fields(t)[0]);
    }
  }

  lemma SplitLine(line: string, rest: string)
    requires '\n' !in line
    ensures Split(line + "\n" + rest, '\n') == [line] + Split(rest, '\n')
  {
    SplitAt(line, '\n', rest);
  }

  lemma NothingParsed(lines: seq<string>)
    ensures ParsedLines(lines[..0]) == []
  {
  }

  lemma LastLine(lines: seq<string>, line: string)
    ensures ParsedLines(lines + [line]) == ParsedLines(lines) + RowIn(line)
  {
    assert (lines + [line])[..|lines|] == lines;
  }

  lemma ParsedCons(line: string, lines: seq<string>)
    ensures ParsedLines([line] + lines) == RowIn(line) + ParsedLines(lines)
    decreases |lines|
  {
    hide RowIn, ParsedLines;
    NothingParsed(lines);
    if lines == [] {
      LastLine(lines, line);
      assert [line] + lines == lines + [line] && lines[..0] == lines;
    } else {
      var k := |lines| - 1;
      ParsedCons(line, lines[..k]);
      LastLine(lines[..k], lines[k]);
      LastLine([line] + lines[..k], lines[k]);
      assert lines == lines[..k] + [lines[k]];
      assert [line] + lines == [line] + lines[..k] + [lines[k]];
      assert (RowIn(line) + ParsedLines(lines[..k])) + RowIn(lines[k]) == RowIn(line) + (ParsedLines(lines[..k]) + RowIn(lines[k]));
    }
  }

  lemma {:induction false} RowsRead(recs: seq<Recipient>)
    requires forall i :: 0 <= i < |recs| && recs[i].account != "" ==> Printable(recs[i])
    ensures ParsedLines(Split(RowLines(recs), '\n')) == RowsOf(recs)
  {
    hide ParseLine, Printable, Line;
    if recs == [] {
      BlankLine();
    } else {
      var r := recs[0];
      RowsRead(recs[1..]);
      if r.account != "" {
        assert Printable(r);
        LineIsOneLine(r);
        SplitLine(Line(r), RowLines(recs[1..]));
        ParsedCons(Line(r), Split(RowLines(recs[1..]), '\n'));
        LineReadIff(r);
      } else {
        assert "" + RowLines(recs[1..]) == RowLines(recs[1..]);
      }
    }
  }

  lemma BlankLine()
    ensures ParsedLines(Split("", '\n')) == []
  {
    assert Split("", '\n') == [""] && [""][..0] == [] && ParseLine("") == None;
  }

  lemma LineIsOneLine(r: Recipient)
    requires Printable(r)
    ensures '\n' !in Line(r)
  {
    AtoiItoa(r.dailyLimit);
  }

  // Parsing what SendLimits prints gives back one row per recipient with an account, in order.
  lemma LimitsRoundTrip(recs: seq<Recipient>)
    requires forall i :: 0 <= i < |recs| && recs[i].account != "" ==> Printable(recs[i])
    ensures ParsedLines(Split(HEADER + "\n" + RowLines(recs), '\n')) == RowsOf(recs)
  {
    hide ParseLine, Printable, Split, HEADER;
    HeaderIsComment();
    SplitLine(HEADER, RowLines(recs));
    ParsedCons(HEADER, Split(RowLines(recs), '\n'));
    CommentLine(HEADER);
    RowsRead(recs);
  }

  lemma HeaderIsComment()
    ensures HEADER != "" && HEADER[0] == '#' && '\n' !in HEADER
  {
    assert "# sender "[0] == '#';
    assert forall c :: c in "# sender " || c in "account " || c in "daily_limit " || c in "— generated" || c in ", do not edit" ==> c != '\n';
  }

  lemma CommentLine(line: string)
    requires line != "" && line[0] == '#'
    ensures ParseLine(line) == None
  {
    TrimmedStart(line);
  }

  // ---------- one line in full ----------

  lemma SomeNumbers()
    ensures Itoa(1205) == "1205" && Itoa(0) == "0" && Itoa(-7) == "-7"
  {
    assert Digits(1) == "1" && Digits(12) == "12" && Digits(120) == "120" && Digits(1205) == "1205" && Digits(7) == "7";
  }

  // A line names the address, then the account, then the limit.
  lemma OneLine(r: Recipient)
    requires r.address == "info@ex.org" && r.account == "acme" && r.dailyLimit == 1205
    ensures Line(r) == "info@ex.org acme 1205" && ParseLine(Line(r)) == Some(LimitRow("info@ex.org", "acme", 1205))
  {
    hide Itoa, TrimSpace, Fields, Atoi, ToLower;
    SomeNumbers();
    IsPrintable(r);
    LineReadIff(r);
    SmallStays("info@ex.org");
  }

  lemma IsPrintable(r: Recipient)
    requires r.address == "info@ex.org" && r.account == "acme"
    ensures Printable(r)
  {
  }

  lemma SmallStays(s: string)
    requires forall i :: 0 <= i < |s| ==> !('A' <= s[i] <= 'Z')
    ensures ToLower(s) == s
  {
  }

  // Three words, the third a number, are a row whatever follows them; fewer are none.
  lemma ThreeWordsAreARow(address: string, account: string, n: int, rest: string)
    requires IsWord(address) && IsWord(account) && address[0] != '#'
    ensures ParseLine(address + " " + account + " " + Itoa(n) + " " + rest) == Some(LimitRow(ToLower(address), account, n))
  {
    hide Fields, TrimSpace, Itoa, Atoi, ToLower;
    var line := address + " " + account + " " + Itoa(n) + " " + rest;
    AtoiItoa(n);
    assert address[0] in address && line[0] == address[0];
    TrimmedStart(line);
    FieldsOfTrimmed(line);
    FieldsSkip(rest);
    FieldsCons(Itoa(n), " " + rest);
    FieldsSkip(Itoa(n) + (" " + rest));
    FieldsCons(account, " " + (Itoa(n) + (" " + rest)));
    FieldsSkip(account + (" " + (Itoa(n) + (" " + rest))));
    FieldsCons(address, " " + (account + (" " + (Itoa(n) + (" " + rest)))));
    assert line == address + (" " + (account + (" " + (Itoa(n) + (" " + rest)))));
  }

  lemma FewerWordsAreNone(address: string, account: string)
    requires IsWord(address) && IsWord(account)
    ensures ParseLine(address + " " + account) == None && ParseLine(address) == None
  {
    hide Fields, TrimSpace;
    NoFields();
    FieldsCons(account, "");
    FieldsSkip(account);
    FieldsCons(address, " " + account);
    FieldsCons(address, "");
    assert account + "" == account && address + "" == address && address + (" " + account) == address + " " + account;
    FieldsOfTrimmed(address + " " + account);
    FieldsOfTrimmed(address);
  }
}
