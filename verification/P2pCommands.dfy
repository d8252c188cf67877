/**
The P2P notice-of-absence and power-save commands
(wpa_supplicant_8_lib/mediatek_driver_cmd_nl80211.c): printed by the setters, routed by
wpa_driver_nl80211_driver_cmd, tokenized and parsed by their handlers.
 */
module P2pCommands {
  import opened Bytes
  import opened DriverCommand

  const MAX_DRV_CMD_SIZE := 248
  const MAX_ARGS := 64

  // ----- decimal numbers

  function Digit(d: nat): char
    requires d < 10
  {
    ('0' as int + d) as char
  }

  predicate IsDigit(c: char) { '0' <= c <= '9' }

  function DigitValue(c: char): nat
    requires IsDigit(c)
  {
    c as int - '0' as int
  }

  function Digits(n: nat): (r: string)
    ensures r != [] && forall i :: 0 <= i < |r| ==> IsDigit(r[i])
  {
    if n < 10 then [Digit(n)] else Digits(n / 10) + [Digit(n % 10)]
  }

  /** printf's %d */
  function Decimal(n: int): (r: string)
    ensures r != []
    ensures forall i :: 0 <= i < |r| ==> IsDigit(r[i]) || r[i] == '-'
  {
    if n < 0 then ['-'] + Digits(-n) else Digits(n)
  }

  predicate IsSpace(c: char) { c == ' ' || '\t' <= c <= '\r' }

  function SkipSpace(s: string): string {
    if s != [] && IsSpace(s[0]) then SkipSpace(s[1..]) else s
  }

  function ParseDigits(s: string, acc: nat): nat
    decreases |s|
  {
    if s == [] || !IsDigit(s[0]) then acc else ParseDigits(s[1..], 10 * acc + DigitValue(s[0]))
  }

  /** atoi, on numbers that fit an int */
  function Atoi(s: string): int {
    var t := SkipSpace(s);
    if t != [] && t[0] == '-' then 0 - ParseDigits(t[1..], 0)
    else if t != [] && t[0] == '+' then ParseDigits(t[1..], 0)
    else ParseDigits(t, 0)
  }

  lemma {:induction false} ParseAppend(s: string, d: nat, acc: nat)
    requires d < 10 && forall i :: 0 <= i < |s| ==> IsDigit(s[i])
    ensures ParseDigits(s + [Digit(d)], acc) == 10 * ParseDigits(s, acc) + d
    decreases |s|
  {
    if s == [] {
      assert s + [Digit(d)] == [Digit(d)];
      assert ParseDigits([Digit(d)][1..], 10 * acc + d) == 10 * acc + d;
    } else {
      assert (s + [Digit(d)])[1..] == s[1..] + [Digit(d)];
      ParseAppend(s[1..], d, 10 * acc + DigitValue(s[0]));
    }
  }

  lemma {:induction false} ParseBack(n: nat)
    ensures ParseDigits(Digits(n), 0) == n
  {
    if n < 10 {
      assert [Digit(n)][1..] == [];
    } else {
      ParseBack(n / 10);
      ParseAppend(Digits(n / 10), n % 10, 0);
    }
  }

  /** Parsing a printed number gives it back. */
  lemma AtoiInvertsDecimal(n: int)
    ensures Atoi(Decimal(n)) == n
  {
    if n < 0 {
      assert Decimal(n)[1..] == Digits(-n);
      ParseBack(-n);
    } else {
      ParseBack(n);
    }
  }

  function Pow10(k: nat): (r: nat)
    ensures r >= 1
  {
    if k == 0 then 1 else 10 * Pow10(k - 1)
  }

  /** Decimal digit `k` of a number, counted from the last. */
  function DigitOf(n: nat, k: nat): nat {
    if k == 0 then n % 10 else DigitOf(n / 10, k - 1)
  }

  /** The digits printed are those of the number, and the first is not 0 except for 0 itself. */
  lemma {:induction false} DigitsAre(n: nat, k: nat)
    requires k < |Digits(n)|
    ensures Digits(n)[|Digits(n)| - 1 - k] as int == '0' as int + DigitOf(n, k)
    ensures n > 0 ==> Digits(n)[0] != '0'
    decreases n
  {
    if n >= 10 {
      DigitsAre(n / 10, if k == 0 then 0 else k - 1);
      DigitsFront(n, k);
    }
  }

  lemma DigitsFront(n: nat, k: nat)
    requires n >= 10 && k < |Digits(n)|
    ensures |Digits(n)| == |Digits(n / 10)| + 1 && Digits(n)[0] == Digits(n / 10)[0]
    ensures Digits(n)[|Digits(n)| - 1 - k] == if k == 0 then Digit(n % 10) else Digits(n / 10)[|Digits(n / 10)| - k]
  {
  }

  // ----- atoi on any text

  lemma {:induction false} ParseStops(n: nat, rest: string)
    requires rest == [] || !IsDigit(rest[0])
    ensures ParseDigits(Digits(n) + rest, 0) == n
  {
    ParseBack(n);
    ParseBehind(Digits(n), rest, 0);
  }

  lemma {:induction false} ParseBehind(s: string, rest: string, acc: nat)
    requires (forall i :: 0 <= i < |s| ==> IsDigit(s[i])) && (rest == [] || !IsDigit(rest[0]))
    ensures ParseDigits(s + rest, acc) == ParseDigits(s, acc)
    decreases |s|
  {
    if s == [] {
      assert s + rest == rest;
    } else {
      assert (s + rest)[1..] == s[1..] + rest;
      ParseBehind(s[1..], rest, 10 * acc + DigitValue(s[0]));
    }
  }

  lemma {:induction false} ZerosInFront(zeros: string, s: string)
    requires forall i :: 0 <= i < |zeros| ==> zeros[i] == '0'
    ensures ParseDigits(zeros + s, 0) == ParseDigits(s, 0)
    decreases |zeros|
  {
    if zeros == [] {
      assert zeros + s == s;
    } else {
      assert (zeros + s)[1..] == zeros[1..] + s;
      ZerosInFront(zeros[1..], s);
    }
  }

  lemma {:induction false} SpacesSkipped(spaces: string, s: string)
    requires forall i :: 0 <= i < |spaces| ==> spaces[i] == ' ' || '\t' <= spaces[i] <= '\r'
    requires s == [] || !(s[0] == ' ' || '\t' <= s[0] <= '\r')
    ensures SkipSpace(spaces + s) == s
    decreases |spaces|
  {
    if spaces == [] {
      assert spaces + s == s;
    } else {
      assert (spaces + s)[1..] == spaces[1..] + s;
      SpacesSkipped(spaces[1..], s);
    }
  }

  datatype Sign = NoSign | Plus | Minus

  function SignText(sign: Sign): string {
    match sign
    case NoSign => ""
    case Plus => "+"
    case Minus => "-"
  }

  /** White space, a sign, zeros in front and whatever stands behind the digits do not disturb atoi. */
  lemma AtoiReads(spaces: string, sign: Sign, zeros: string, n: nat, rest: string)
    requires forall i :: 0 <= i < |spaces| ==> spaces[i] == ' ' || '\t' <= spaces[i] <= '\r'
    requires (forall i :: 0 <= i < |zeros| ==> zeros[i] == '0') && (rest == [] || !('0' <= rest[0] <= '9'))
    ensures Atoi(spaces + (SignText(sign) + (zeros + (Digits(n) + rest)))) == if sign.Minus? then 0 - n else n
  {
    var digits := zeros + (Digits(n) + rest);
    var t := SignText(sign) + digits;
    ZerosInFront(zeros, Digits(n) + rest);
    ParseStops(n, rest);
    assert '0' <= digits[0] <= '9' by {
      assert digits[0] == if zeros == [] then Digits(n)[0] else zeros[0];
    }
    if sign.NoSign? {
      assert t == digits;
    } else {
      assert t[1..] == digits;
    }
    SpacesSkipped(spaces, t);
  }

  /** Text that does not begin with a number reads as 0. */
  lemma AtoiOfOther(s: string)
    requires s == [] || !(IsSpace(s[0]) || IsDigit(s[0]) || s[0] == '+' || s[0] == '-')
    ensures Atoi(s) == 0
  {
  }

  lemma {:induction false} DigitsLength(n: nat, k: nat)
    requires 1 <= k && n < Pow10(k)
    ensures |Digits(n)| <= k
    decreases k
  {
    assert Pow10(1) == 10 * Pow10(0);
    if n >= 10 {
      DigitsLength(n / 10, k - 1);
    }
  }

  predicate IsInt32(n: int) { -0x8000_0000 <= n < 0x8000_0000 }

  lemma DecimalLength(n: int)
    requires IsInt32(n)
    ensures |Decimal(n)| <= 11
  {
    assert Pow10(10) == 10_000_000_000 by {
      assert Pow10(2) == 100;
      assert Pow10(4) == 10 * (10 * Pow10(2));
      assert Pow10(6) == 10 * (10 * Pow10(4));
      assert Pow10(8) == 10 * (10 * Pow10(6));
      assert Pow10(10) == 10 * (10 * Pow10(8));
    }
    DigitsLength(if n < 0 then -n else n, 10);
  }

  // ----- printing

  /** snprintf into a buffer of `size` bytes. */
  function Snprintf(size: nat, s: string): string
    requires size > 0
  {
    if |s| < size then s else s[..size - 1]
  }

  function Words(name: string, a: int, b: int, c: int): string {
    name + " " + (Decimal(a) + " " + (Decimal(b) + " " + Decimal(c)))
  }

  const SET_NOA := "P2P_SET_NOA"
  const SET_PS := "P2P_SET_PS"

  /** The text wpa_driver_set_p2p_noa hands to the dispatcher. */
  function PrintNoa(count: int, start: int, duration: int): string {
    Snprintf(MAX_DRV_CMD_SIZE, Words(SET_NOA, count, start, duration))
  }

  function PrintPs(legacyPs: int, oppPs: int, ctwindow: int): string {
    Snprintf(MAX_DRV_CMD_SIZE, Words(SET_PS, legacyPs, oppPs, ctwindow))
  }

  /** The text of the two commands. */
  lemma PrintedText(a: int, b: int, c: int)
    requires IsInt32(a) && IsInt32(b) && IsInt32(c)
    ensures PrintNoa(a, b, c) == "P2P_SET_NOA " + (Decimal(a) + " " + (Decimal(b) + " " + Decimal(c)))
    ensures PrintPs(a, b, c) == "P2P_SET_PS " + (Decimal(a) + " " + (Decimal(b) + " " + Decimal(c)))
  {
    PrintedWhole(SET_NOA, a, b, c);
    PrintedWhole(SET_PS, a, b, c);
    assert SET_NOA + " " == "P2P_SET_NOA " && SET_PS + " " == "P2P_SET_PS ";
  }

  lemma PrintedWhole(name: string, a: int, b: int, c: int)
    requires |name| <= 11 && IsInt32(a) && IsInt32(b) && IsInt32(c)
    ensures Snprintf(MAX_DRV_CMD_SIZE, Words(name, a, b, c)) == Words(name, a, b, c)
    ensures |Words(name, a, b, c)| < MAX_ARGS
  {
    DecimalLength(a);
    DecimalLength(b);
    DecimalLength(c);
  }

  // ----- the words of a printed command

  predicate IsWord(w: string) {
    forall i :: 0 <= i < |w| ==> !IsSep(w[i]) && w[i] != NUL
  }

  /** Tokenizing does not look at what stands before the position. */
  lemma {:induction false} TokensShift(front: string, s: string, pos: nat)
    requires pos <= |s|
    ensures Tokens(front + s, |front| + pos) == Tokens(s, pos)
    decreases |s| - pos
  {
    NextSepShift(front, s, pos);
    var e := NextSep(s, pos);
    SliceShift(front, s, pos, e);
    assert |front| + e + 1 == |front| + (e + 1);
    if e + 1 < |s| {
      TokensShift(front, s, e + 1);
    }
  }

  lemma SliceShift(front: string, s: string, lo: nat, hi: nat)
    requires lo <= hi <= |s|
    ensures (front + s)[|front| + lo..|front| + hi] == s[lo..hi]
  {
  }

  lemma {:induction false} NextSepShift(front: string, s: string, pos: nat)
    requires pos <= |s|
    ensures NextSep(front + s, |front| + pos) == |front| + NextSep(s, pos)
    decreases |s| - pos
  {
    if pos < |s| && !IsSep(s[pos]) {
      NextSepShift(front, s, pos + 1);
    }
  }

  lemma {:induction false} WordEnds(w: string, rest: string, pos: nat)
    requires IsWord(w) && pos <= |w| && (rest == [] || IsSep(rest[0]))
    ensures NextSep(w + rest, pos) == |w|
    decreases |w| - pos
  {
    if pos < |w| {
      WordEnds(w, rest, pos + 1);
    }
  }

  lemma LastToken(w: string)
    requires IsWord(w)
    ensures Tokens(w, 0) == [w]
  {
    WordEnds(w, [], 0);
    assert w + [] == w && w[0..|w|] == w;
  }

  lemma FirstToken(w: string, rest: string)
    requires IsWord(w) && rest != []
    ensures Tokens(w + " " + rest, 0) == [w] + Tokens(rest, 0)
  {
    var s := w + " " + rest;
    assert s == w + (" " + rest);
    WordEnds(w, " " + rest, 0);
    TokensShift(w + " ", rest, 0);
    assert s[0..|w|] == w;
  }

  lemma DecimalIsWord(n: int)
    ensures IsWord(Decimal(n)) && NUL !in Decimal(n)
  {
  }

  /** A printed command has exactly four words: its name and its three numbers. */
  lemma FourWords(name: string, a: int, b: int, c: int)
    requires IsWord(name)
    ensures Tokens(Words(name, a, b, c), 0) == [name, Decimal(a), Decimal(b), Decimal(c)]
    ensures NUL !in Words(name, a, b, c)
  {
    DecimalIsWord(a);
    DecimalIsWord(b);
    DecimalIsWord(c);
    LastToken(Decimal(c));
    FirstToken(Decimal(b), Decimal(c));
    FirstToken(Decimal(a), Decimal(b) + " " + Decimal(c));
    FirstToken(name, Decimal(a) + " " + (Decimal(b) + " " + Decimal(c)));
    NoNulIn(name, Decimal(a), Decimal(b), Decimal(c));
  }

  lemma NoNulIn(w: string, x: string, y: string, z: string)
    requires NUL !in w && NUL !in x && NUL !in y && NUL !in z
    ensures NUL !in w + " " + (x + " " + (y + " " + z))
  {
  }

  // ----- routing

  datatype Route = SetNoa | SetPs | OtherHandler | Transparent

  function Lower(c: char): char {
    if 'A' <= c <= 'Z' then (c as int + 32) as char else c
  }

  /** os_strncmp(cmd, p, strlen(p)) == 0 */
  predicate Begins(cmd: string, p: string) {
    |p| <= |cmd| && forall i :: 0 <= i < |p| ==> cmd[i] == p[i]
  }

  /** os_strncasecmp(cmd, p, strlen(p)) == 0 */
  predicate BeginsAnyCase(cmd: string, p: string) {
    |p| <= |cmd| && forall i :: 0 <= i < |p| ==> Lower(cmd[i]) == Lower(p[i])
  }

  /** os_strcasecmp(cmd, p) == 0 */
  predicate IsAnyCase(cmd: string, p: string) {
    |p| == |cmd| && BeginsAnyCase(cmd, p)
  }

  /** The branches tried before P2P_SET_NOA, all build options on. */
  predicate CaughtEarlier(cmd: string) {
    BeginsAnyCase(cmd, "POWERMODE ") || BeginsAnyCase(cmd, "p2p_use_mcc=")
    || CaughtByAnyCase(cmd) || CaughtByCase(cmd) || CaughtWhole(cmd)
  }

  predicate CaughtByAnyCase(cmd: string) {
    || BeginsAnyCase(cmd, "GET_STA_STATISTICS ") || BeginsAnyCase(cmd, "COUNTRY")
    || BeginsAnyCase(cmd, "getpower") || IsFilterCommand(cmd) || BeginsAnyCase(cmd, "btcoexmode")
    || BeginsAnyCase(cmd, "set_max_client ") || BeginsAnyCase(cmd, "set-wapi-key")
    || BeginsAnyCase(cmd, "wapi-msg-send")
    || BeginsAnyCase(cmd, "mcc") || BeginsAnyCase(cmd, "sigma_mode")
  }

  predicate IsFilterCommand(cmd: string) {
    || BeginsAnyCase(cmd, "rxfilter-add") || BeginsAnyCase(cmd, "rxfilter-remove")
    || BeginsAnyCase(cmd, "rxfilter-stop") || BeginsAnyCase(cmd, "rxfilter-start")
  }

  predicate CaughtByCase(cmd: string) {
    || Begins(cmd, "MACADDR") || Begins(cmd, "STA-BLOCK ") || Begins(cmd, "STA-UNBLOCK ") || Begins(cmd, "MTK-ACS")
    || Begins(cmd, "MIRACAST ") || Begins(cmd, "wfd_data_update") || IsLowerCaseP2p(cmd)
  }

  predicate IsLowerCaseP2p(cmd: string) {
    || Begins(cmd, "p2p_get_cap ") || Begins(cmd, "p2p_set_cap ") || Begins(cmd, "p2p_set_opps ")
    || Begins(cmd, "p2p_set_power_save ") || Begins(cmd, "p2p_set_sleep ") || Begins(cmd, "p2p_set_sleep")
  }

  predicate CaughtWhole(cmd: string) {
    || IsAnyCase(cmd, "start") || IsAnyCase(cmd, "stop")
    || IsAnyCase(cmd, "btcoexscan-start") || IsAnyCase(cmd, "btcoexscan-stop")
  }

  function Dispatch(cmd: string): Route {
    if CaughtEarlier(cmd) then OtherHandler
    else if Begins(cmd, SET_NOA) then SetNoa
    else if Begins(cmd, SET_PS) then SetPs
    else if BeginsAnyCase(cmd, "SETSUSPENDMODE ") || BeginsAnyCase(cmd, "mtk_rx_packet_filter ") then OtherHandler
    else Transparent
  }

  /** A pattern with another first letter does not match. */
  lemma OtherLetter(cmd: string, p: string)
    requires cmd != [] && p != [] && Lower(cmd[0]) != Lower(p[0])
    ensures !BeginsAnyCase(cmd, p) && !IsAnyCase(cmd, p)
  {
  }

  lemma OtherCase(cmd: string, p: string)
    requires cmd != [] && p != [] && cmd[0] != p[0]
    ensures !Begins(cmd, p)
  {
  }

  /** No earlier branch catches text that starts with P2P_SET_. */
  lemma NotCaughtEarlier(cmd: string)
    requires |cmd| > 5 && cmd[0] == 'P' && cmd[1] == '2' && cmd[4] == 'S'
    ensures !CaughtEarlier(cmd)
  {
    assert "POWERMODE "[1] == 'O' && "p2p_use_mcc="[4] == 'u';
    assert !BeginsAnyCase(cmd, "POWERMODE ") && !BeginsAnyCase(cmd, "p2p_use_mcc=");
    NotCaughtByAnyCase(cmd);
    NotCaughtByCase(cmd);
    NotCaughtWhole(cmd);
  }

  lemma NotCaughtByAnyCase(cmd: string)
    requires |cmd| > 5 && cmd[0] == 'P'
    ensures !CaughtByAnyCase(cmd)
  {
    OtherLetter(cmd, "GET_STA_STATISTICS ");
    OtherLetter(cmd, "COUNTRY");
    OtherLetter(cmd, "getpower");
    NotAFilterCommand(cmd);
    OtherLetter(cmd, "btcoexmode");
    OtherLetter(cmd, "set_max_client ");
    OtherLetter(cmd, "set-wapi-key");
    OtherLetter(cmd, "wapi-msg-send");
    OtherLetter(cmd, "mcc");
    OtherLetter(cmd, "sigma_mode");
  }

  lemma NotAFilterCommand(cmd: string)
    requires |cmd| > 5 && cmd[0] == 'P'
    ensures !IsFilterCommand(cmd)
  {
    OtherLetter(cmd, "rxfilter-add");
    OtherLetter(cmd, "rxfilter-remove");
    OtherLetter(cmd, "rxfilter-stop");
    OtherLetter(cmd, "rxfilter-start");
  }

  lemma NotCaughtByCase(cmd: string)
    requires |cmd| > 5 && cmd[0] == 'P'
    ensures !CaughtByCase(cmd)
  {
    OtherCase(cmd, "MACADDR");
    OtherCase(cmd, "STA-BLOCK ");
    OtherCase(cmd, "STA-UNBLOCK ");
    OtherCase(cmd, "MTK-ACS");
    OtherCase(cmd, "MIRACAST ");
    OtherCase(cmd, "wfd_data_update");
    NotLowerCaseP2p(cmd);
  }

  lemma NotLowerCaseP2p(cmd: string)
    requires |cmd| > 5 && cmd[0] == 'P'
    ensures !IsLowerCaseP2p(cmd)
  {
    OtherCase(cmd, "p2p_get_cap ");
    OtherCase(cmd, "p2p_set_cap ");
    OtherCase(cmd, "p2p_set_opps ");
    OtherCase(cmd, "p2p_set_power_save ");
    OtherCase(cmd, "p2p_set_sleep ");
    OtherCase(cmd, "p2p_set_sleep");
  }

  lemma NotCaughtWhole(cmd: string)
    requires |cmd| > 5 && cmd[0] == 'P'
    ensures !CaughtWhole(cmd)
  {
    OtherLetter(cmd, "start");
    OtherLetter(cmd, "stop");
    OtherLetter(cmd, "btcoexscan-start");
    OtherLetter(cmd, "btcoexscan-stop");
  }

  // ----- handling

  /** What is sent to the driver; `index` and `buflen` are the test-mode header. */
  datatype Params =
    | Noa(index: nat, buflen: nat, idx: nat, value: nat, count: nat, interval: nat, duration: nat)
    | Opps(index: nat, buflen: nat, idx: nat, value: nat)

  datatype Outcome = Sent(params: Params) | BadFormat | NotHere(route: Route)

  const TEST_MODE_INDEX := 0x0100_0001
  const NOA_SIZE := 28
  const SIGMA_SIZE := 16
  const NOA_IDX := 4
  const OPPS_IDX := 107

  /** ctw |= BIT(7) on the 32-bit pattern */
  function SetBit7(u: nat): nat {
    if u / 128 % 2 == 1 then u else u + 128
  }

  /** Bit 7 is on afterwards, and no other bit has changed. */
  lemma SetBit7Sets(u: nat)
    ensures SetBit7(u) / 128 % 2 == 1
    ensures SetBit7(u) % 128 == u % 128 && SetBit7(u) / 256 == u / 256
  {
    var q := u / 128;
    assert u == 128 * q + u % 128;
    if q % 2 == 0 {
      assert u + 128 == 128 * (q + 1) + u % 128;
      assert (u + 128) / 128 == q + 1;
      assert u / 256 == q / 2 && (u + 128) / 256 == (q + 1) / 2;
    }
  }

  function NoaOf(words: seq<string>): Outcome {
    if |words| != 4 then BadFormat
    else Sent(Noa(TEST_MODE_INDEX, NOA_SIZE, NOA_IDX, 0, U32(Atoi(words[1])), U32(Atoi(words[2])), U32(Atoi(words[3]))))
  }

  function OppsOf(words: seq<string>): Outcome {
    if |words| != 4 then BadFormat
    else
      var ctw := U32(Atoi(words[3]));
      Sent(Opps(TEST_MODE_INDEX, SIGMA_SIZE, OPPS_IDX, if Atoi(words[2]) != 0 then SetBit7(ctw) else ctw))
  }

  /** What the driver command amounts to, said about its text. */
  function Meaning(text: string): Outcome {
    match Dispatch(text)
    case SetNoa => NoaOf(Tokens(text, 0))
    case SetPs => OppsOf(Tokens(text, 0))
    case other => NotHere(other)
  }

  predicate BeginsNoa(text: string) { |text| >= 11 && text[..11] == "P2P_SET_NOA" }

  predicate BeginsPs(text: string) { |text| >= 10 && text[..10] == "P2P_SET_PS" }

  lemma BeginsIs(text: string)
    ensures BeginsNoa(text) <==> Begins(text, SET_NOA)
    ensures BeginsPs(text) <==> Begins(text, SET_PS)
    ensures BeginsNoa(text) ==> !BeginsPs(text)
  {
    if Begins(text, SET_NOA) {
      assert text[..11] == SET_NOA;
    }
    if Begins(text, SET_PS) {
      assert text[..10] == SET_PS;
    }
    if BeginsNoa(text) {
      assert text[8] == text[..11][8] == 'N';
    }
    if BeginsPs(text) {
      assert text[8] == text[..10][8] == 'P';
    }
  }

  /**
  What any text amounts to: one of the two commands by its first letters; rejected unless it has
  exactly four words; and then the numbers in words two to four, bit 7 of the last forced on
  when the third is not zero.
   */
  lemma MeaningIs(text: string)
    ensures var words := Tokens(text, 0);
            && (BeginsNoa(text) ==>
                  Meaning(text) == if |words| != 4 then BadFormat
                                   else Sent(Noa(0x0100_0001, 28, 4, 0, U32(Atoi(words[1])), U32(Atoi(words[2])),
                                                 U32(Atoi(words[3])))))
            && (BeginsPs(text) && |words| != 4 ==> Meaning(text) == BadFormat)
            && (BeginsPs(text) && |words| == 4 && Atoi(words[2]) == 0 ==>
                  Meaning(text) == Sent(Opps(0x0100_0001, 16, 107, U32(Atoi(words[3])))))
            && (BeginsPs(text) && |words| == 4 && Atoi(words[2]) != 0 ==>
                  Meaning(text) == Sent(Opps(0x0100_0001, 16, 107, SetBit7(U32(Atoi(words[3]))))))
            && (!BeginsNoa(text) && !BeginsPs(text) ==> Meaning(text).NotHere?)
  {
    BeginsIs(text);
    if BeginsNoa(text) || BeginsPs(text) {
      FirstLetters(text);
      NotCaughtEarlier(text);
    }
  }

  lemma FirstLetters(text: string)
    requires BeginsNoa(text) || BeginsPs(text)
    ensures |text| > 5 && text[0] == 'P' && text[1] == '2' && text[4] == 'S'
  {
    var p := if BeginsNoa(text) then text[..11] else text[..10];
    assert p[0] == 'P' && p[1] == '2' && p[4] == 'S';
  }

  /** p2p_ctrl_iface_set_noa, on the buffer it overwrites. */
  method HandleNoa(cmd: array<char>, len: nat) returns (r: Outcome)
    requires len < cmd.Length && cmd[len] == NUL && NUL !in cmd[..len] && |Tokens(cmd[..len], 0)| <= MAX_ARGS
    modifies cmd
    ensures r == NoaOf(Tokens(old(cmd[..len]), 0))
  {
    ghost var s, all := cmd[..len], cmd[..];
    var argv := new nat[MAX_ARGS];
    var argc := TokenizeSpace(cmd, argv, len);
    StartsCount(s, 0);
    if argc != 4 {
      return BadFormat;
    }
    WordsInBuffer(cmd[..], s, all, 0, 1);
    WordsInBuffer(cmd[..], s, all, 0, 2);
    WordsInBuffer(cmd[..], s, all, 0, 3);
    assert argv[1] == argv[..argc][1] && argv[2] == argv[..argc][2] && argv[3] == argv[..argc][3];
    r := Sent(Noa(TEST_MODE_INDEX, NOA_SIZE, NOA_IDX, 0, U32(Atoi(CString(cmd[..], argv[1]))),
                  U32(Atoi(CString(cmd[..], argv[2]))), U32(Atoi(CString(cmd[..], argv[3])))));
  }

  /** p2p_ctrl_iface_set_ps; the first number is not looked at. */
  method HandlePs(cmd: array<char>, len: nat) returns (r: Outcome)
    requires len < cmd.Length && cmd[len] == NUL && NUL !in cmd[..len] && |Tokens(cmd[..len], 0)| <= MAX_ARGS
    modifies cmd
    ensures r == OppsOf(Tokens(old(cmd[..len]), 0))
  {
    ghost var s, all := cmd[..len], cmd[..];
    var argv := new nat[MAX_ARGS];
    var argc := TokenizeSpace(cmd, argv, len);
    StartsCount(s, 0);
    if argc != 4 {
      return BadFormat;
    }
    WordsInBuffer(cmd[..], s, all, 0, 2);
    WordsInBuffer(cmd[..], s, all, 0, 3);
    assert argv[2] == argv[..argc][2] && argv[3] == argv[..argc][3];
    var enable := Atoi(CString(cmd[..], argv[2]));
    var ctw := U32(Atoi(CString(cmd[..], argv[3])));
    if enable != 0 {
      ctw := SetBit7(ctw);
    }
    r := Sent(Opps(TEST_MODE_INDEX, SIGMA_SIZE, OPPS_IDX, ctw));
  }

  /** The two branches of wpa_driver_nl80211_driver_cmd, on a command of `len` characters. */
  method DriverCmd(cmd: array<char>, len: nat) returns (r: Outcome)
    requires len < cmd.Length && cmd[len] == NUL && NUL !in cmd[..len] && |Tokens(cmd[..len], 0)| <= MAX_ARGS
    modifies cmd
    ensures r == Meaning(old(cmd[..len]))
  {
    var route := Dispatch(cmd[..len]);
    match route
    case SetNoa => r := HandleNoa(cmd, len);
    case SetPs => r := HandlePs(cmd, len);
    case _ => r := NotHere(route);
  }

  // ----- round trips

  lemma NoaIsRouted(rest: string)
    ensures Dispatch(SET_NOA + rest) == SetNoa
  {
    NotCaughtEarlier(SET_NOA + rest);
  }

  lemma PsIsRouted(rest: string)
    ensures Dispatch(SET_PS + rest) == SetPs
  {
    var cmd := SET_PS + rest;
    NotCaughtEarlier(cmd);
    PsIsNotNoa(rest);
  }

  /** The two names differ in their ninth letter. */
  lemma PsIsNotNoa(rest: string)
    ensures Begins(SET_PS + rest, SET_PS) && !Begins(SET_PS + rest, SET_NOA)
  {
    assert SET_NOA[8] == 'N' && (SET_PS + rest)[8] == 'P';
  }

  /** Every notice of absence that is set reaches the driver with its three numbers, modulo 2^32. */
  lemma NoaRoundTrip(count: int, start: int, duration: int)
    requires 0 <= count < 256 && IsInt32(start) && IsInt32(duration)
    ensures Meaning(PrintNoa(count, start, duration))
         == Sent(Noa(TEST_MODE_INDEX, NOA_SIZE, NOA_IDX, 0, U32(count), U32(start), U32(duration)))
  {
    PrintedWhole(SET_NOA, count, start, duration);
    FourWords(SET_NOA, count, start, duration);
    var numbers := Decimal(count) + " " + (Decimal(start) + " " + Decimal(duration));
    ConcatAssoc(SET_NOA, " ", numbers);
    NoaIsRouted(" " + numbers);
    NoaOfWords(SET_NOA, count, start, duration);
  }

  lemma NoaOfWords(name: string, count: int, start: int, duration: int)
    ensures NoaOf([name, Decimal(count), Decimal(start), Decimal(duration)])
         == Sent(Noa(TEST_MODE_INDEX, NOA_SIZE, NOA_IDX, 0, U32(count), U32(start), U32(duration)))
  {
    AtoiInvertsDecimal(count);
    AtoiInvertsDecimal(start);
    AtoiInvertsDecimal(duration);
  }

  /** Every power-save setting reaches the driver as its CT window, bit 7 forced on iff oppPs is nonzero. */
  lemma PsRoundTrip(legacyPs: int, oppPs: int, ctwindow: int)
    requires IsInt32(legacyPs) && IsInt32(oppPs) && IsInt32(ctwindow)
    ensures Meaning(PrintPs(legacyPs, oppPs, ctwindow))
         == Sent(Opps(TEST_MODE_INDEX, SIGMA_SIZE, OPPS_IDX,
                      if oppPs != 0 then SetBit7(U32(ctwindow)) else U32(ctwindow)))
  {
    PrintedWhole(SET_PS, legacyPs, oppPs, ctwindow);
    FourWords(SET_PS, legacyPs, oppPs, ctwindow);
    var numbers := Decimal(legacyPs) + " " + (Decimal(oppPs) + " " + Decimal(ctwindow));
    ConcatAssoc(SET_PS, " ", numbers);
    PsIsRouted(" " + numbers);
    OppsOfWords(SET_PS, Decimal(legacyPs), oppPs, ctwindow);
  }

  lemma OppsOfWords(name: string, ignored: string, oppPs: int, ctwindow: int)
    ensures OppsOf([name, ignored, Decimal(oppPs), Decimal(ctwindow)])
         == Sent(Opps(TEST_MODE_INDEX, SIGMA_SIZE, OPPS_IDX,
                      if oppPs != 0 then SetBit7(U32(ctwindow)) else U32(ctwindow)))
  {
    AtoiInvertsDecimal(oppPs);
    AtoiInvertsDecimal(ctwindow);
  }

  // ----- the setters

  lemma {:induction false} CountSepBound(s: string, pos: nat)
    requires pos <= |s|
    ensures CountSep(s, pos) <= |s| - pos
    decreases |s| - pos
  {
    if pos < |s| {
      CountSepBound(s, pos + 1);
    }
  }

  /** The setters' local buffer with the printed command in it. */
  method FillBuffer(text: string) returns (buf: array<char>)
    requires |text| < MAX_DRV_CMD_SIZE
    ensures fresh(buf) && buf.Length == MAX_DRV_CMD_SIZE && buf[..|text|] == text && buf[|text|] == NUL
  {
    buf := new char[MAX_DRV_CMD_SIZE](_ => NUL);
    for i := 0 to |text|
      invariant buf[..i] == text[..i] && forall j :: i <= j < buf.Length ==> buf[j] == NUL
    {
      buf[i] := text[i];
    }
  }

  /** wpa_driver_set_p2p_noa, from its arguments to what the driver is sent. */
  method SetP2pNoa(count: int, start: int, duration: int) returns (r: Outcome)
    requires 0 <= count < 256 && IsInt32(start) && IsInt32(duration)
    ensures r == Sent(Noa(TEST_MODE_INDEX, NOA_SIZE, NOA_IDX, 0, U32(count), U32(start), U32(duration)))
  {
    var text := PrintNoa(count, start, duration);
    PrintedWhole(SET_NOA, count, start, duration);
    FourWords(SET_NOA, count, start, duration);
    CountSepBound(text, 0);
    NoaRoundTrip(count, start, duration);
    var buf := FillBuffer(text);
    r := DriverCmd(buf, |text|);
  }

  /** wpa_driver_set_p2p_ps, likewise. */
  method SetP2pPs(legacyPs: int, oppPs: int, ctwindow: int) returns (r: Outcome)
    requires IsInt32(legacyPs) && IsInt32(oppPs) && IsInt32(ctwindow)
    ensures r == Sent(Opps(TEST_MODE_INDEX, SIGMA_SIZE, OPPS_IDX,
                           if oppPs != 0 then SetBit7(U32(ctwindow)) else U32(ctwindow)))
  {
    var text := PrintPs(legacyPs, oppPs, ctwindow);
    PrintedWhole(SET_PS, legacyPs, oppPs, ctwindow);
    FourWords(SET_PS, legacyPs, oppPs, ctwindow);
    CountSepBound(text, 0);
    PsRoundTrip(legacyPs, oppPs, ctwindow);
    var buf := FillBuffer(text);
    r := DriverCmd(buf, |text|);
  }
}
