/** The text of a NotLeader answer and what the client reads back out of it. */
module LeaderHints {

  const PREFIX := "raft node is not leader"
  const ID_MARKER := "leader id="
  const ADDR_MARKER := "addr="

  /** NotLeaderError.Error; quote is the %q verb. */
  function ErrorText(id: string, addr: string, quote: string -> string): string
  {
    if id == "" && addr == "" then PREFIX
    else PREFIX + ": leader id=" + quote(id) + " addr=" + quote(addr)
  }

  /** Strings without a double quote. What %q prints between quotes unchanged is among them, in whatever script. */
  predicate Plain(s: string)
  {
    forall i :: 0 <= i < |s| ==> s[i] != '"'
  }

  function Quoted(s: string): string
  {
    "\"" + s + "\""
  }

  predicate OccursAt(s: string, sub: string, i: int)
  {
    0 <= i && i + |sub| <= |s| && s[i..i + |sub|] == sub
  }

  /** strings.Index from position i on: the first occurrence, or -1. */
  function IndexFrom(s: string, sub: string, i: nat): (r: int)
    requires i <= |s|
    ensures r == -1 || (i <= r && OccursAt(s, sub, r))
    ensures forall j :: i <= j && (r == -1 || j < r) ==> !OccursAt(s, sub, j)
    decreases |s| - i
  {
    if OccursAt(s, sub, i) then i
    else if i == |s| then -1
    else IndexFrom(s, sub, i + 1)
  }

  /** parseQuotedValue. */
  function ParseQuotedValue(message: string, marker: string): string
  {
    var start := IndexFrom(message, marker, 0);
    if start < 0 then ""
    else
      var valueStart := start + |marker|;
      if valueStart >= |message| || message[valueStart] != '"' then ""
      else
        var valueEnd := IndexFrom(message, "\"", valueStart + 1);
        if valueEnd < 0 then "" else message[valueStart + 1..valueEnd]
  }

  function ParseLeaderHint(message: string): (string, string)
  {
    (ParseQuotedValue(message, ID_MARKER), ParseQuotedValue(message, ADDR_MARKER))
  }

  lemma IndexIs(s: string, sub: string, i: nat, k: nat)
    requires i <= k && OccursAt(s, sub, k) && forall j :: i <= j < k ==> !OccursAt(s, sub, j)
    ensures i <= |s| && IndexFrom(s, sub, i) == k
  {
  }

  /** The text before the id's opening quote. */
  const HEAD := "raft node is not leader: leader id="

  lemma IdChars(s: string, j: int)
    requires OccursAt(s, ID_MARKER, j)
    ensures s[j] == 'l' && s[j + 6] == ' ' && s[j + 9] == '='
  {
    var t := s[j..j + 10];
    assert t[0] == s[j] && t[6] == s[j + 6] && t[9] == s[j + 9];
  }

  lemma HeadHasOneIdMarker(s: string)
    requires HEAD <= s
    ensures OccursAt(s, ID_MARKER, 25) && forall j :: 0 <= j < 25 ==> !OccursAt(s, ID_MARKER, j)
  {
    assert s[25..35] == HEAD[25..35];
    assert forall k :: 0 <= k < 35 ==> s[k] == HEAD[k];
    forall j | 0 <= j < 25 ensures !OccursAt(s, ID_MARKER, j) {
      if OccursAt(s, ID_MARKER, j) {
        IdChars(s, j);
      }
    }
  }

  lemma AddrChars(s: string, j: int)
    requires OccursAt(s, ADDR_MARKER, j)
    ensures s[j] == 'a' && s[j + 1] == 'd' && s[j + 2] == 'd' && s[j + 3] == 'r' && s[j + 4] == '='
  {
    var t := s[j..j + 5];
    assert t[0] == s[j] && t[1] == s[j + 1] && t[2] == s[j + 2] && t[3] == s[j + 3] && t[4] == s[j + 4];
  }

  lemma HeadHasNoAddrMarker(s: string, j: int)
    requires HEAD < s && s[35] == '"' && 0 <= j <= 35
    ensures !OccursAt(s, ADDR_MARKER, j)
  {
    assert forall k :: 0 <= k < 35 ==> s[k] == HEAD[k];
    if OccursAt(s, ADDR_MARKER, j) {
      AddrChars(s, j);
    }
  }

  /** The whole text, with its landmarks: the id between positions 36 and c, its closing quote at c, the address
      after c + 8. */
  function Text(id: string, addr: string): string
  {
    HEAD + Quoted(id) + " addr=" + Quoted(addr)
  }

  lemma Landmarks(id: string, addr: string)
    ensures var t, c := Text(id, addr), 36 + |id|;
            && HEAD < t && t[35] == '"' && t[36..c] == id && t[c] == '"' && t[c + 1] == ' '
            && t[c + 2..c + 7] == ADDR_MARKER && t[c + 7] == '"' && t[c + 8..c + 8 + |addr|] == addr
            && |t| == c + 9 + |addr| && t[c + 8 + |addr|] == '"'
  {
    var t, c := Text(id, addr), 36 + |id|;
    assert t == (HEAD + "\"" + id) + "\" addr=\"" + addr + "\"";
    assert t[c..c + 8] == "\" addr=\"";
    assert t[c + 2..c + 7] == t[c..c + 8][2..7];
    assert t[c] == t[c..c + 8][0] && t[c + 1] == t[c..c + 8][1] && t[c + 7] == t[c..c + 8][7];
  }

  lemma QuoteChar(t: string, j: int)
    requires OccursAt(t, "\"", j)
    ensures t[j] == '"'
  {
    assert t[j..j + 1][0] == t[j];
  }

  /** From a position inside plain text the next quote is the one that closes it. */
  lemma NextQuote(t: string, from: nat, close: nat)
    requires from <= close < |t| && t[close] == '"' && forall k :: from <= k < close ==> t[k] != '"'
    ensures IndexFrom(t, "\"", from) == close
  {
    assert t[close..close + 1] == "\"";
    forall j | from <= j < close ensures !OccursAt(t, "\"", j) {
      if OccursAt(t, "\"", j) {
        QuoteChar(t, j);
      }
    }
    IndexIs(t, "\"", from, close);
  }

  lemma IdReadsBack(id: string, addr: string)
    requires Plain(id)
    ensures ParseQuotedValue(Text(id, addr), ID_MARKER) == id
  {
    hide IndexFrom, OccursAt, Text;
    var t, c := Text(id, addr), 36 + |id|;
    Landmarks(id, addr);
    HeadHasOneIdMarker(t);
    IndexIs(t, ID_MARKER, 0, 25);
    assert forall k :: 36 <= k < c ==> t[k] == t[36..c][k - 36];
    NextQuote(t, 36, c);
  }

  lemma SliceOfSlice(t: string, a: nat, c: nat, j: nat, n: nat)
    requires a <= c <= |t| && j + n <= c - a
    ensures t[a..c][j..j + n] == t[a + j..a + j + n]
  {
    var u, v := t[a..c][j..j + n], t[a + j..a + j + n];
    assert forall i :: 0 <= i < n ==> u[i] == v[i];
  }

  /** An id can only mislead the reader where "addr=" occurs in it: at in-text position 36 + j. */
  lemma AddrInsideId(id: string, addr: string, j: nat)
    requires Plain(id) && j <= |id|
    ensures OccursAt(Text(id, addr), ADDR_MARKER, 36 + j) <==> OccursAt(id, ADDR_MARKER, j)
  {
    hide Text;
    var t, c := Text(id, addr), 36 + |id|;
    Landmarks(id, addr);
    if j + 5 <= |id| {
      SliceOfSlice(t, 36, c, j, 5);
    } else if OccursAt(t, ADDR_MARKER, 36 + j) {
      AddrChars(t, 36 + j);
    }
  }

  lemma NoEarlier(id: string, addr: string, j: nat)
    requires Plain(id) && j < 38 + |id| && (36 <= j <= 36 + |id| ==> !OccursAt(id, ADDR_MARKER, j - 36))
    ensures !OccursAt(Text(id, addr), ADDR_MARKER, j)
  {
    hide OccursAt, IndexFrom, Text, Plain;
    Landmarks(id, addr);
    if j <= 35 {
      HeadHasNoAddrMarker(Text(id, addr), j);
    } else if j <= 36 + |id| {
      AddrInsideId(id, addr, j - 36);
    } else {
      NotAtSpace(Text(id, addr), j);
    }
  }

  lemma FirstAddr(id: string, addr: string, first: nat)
    requires Plain(id) && first <= 38 + |id| && OccursAt(Text(id, addr), ADDR_MARKER, first)
    requires forall j :: 0 <= j && 36 + j < first ==> !OccursAt(id, ADDR_MARKER, j)
    ensures IndexFrom(Text(id, addr), ADDR_MARKER, 0) == first
  {
    hide OccursAt, IndexFrom, Text, Plain;
    forall j | 0 <= j < first ensures !OccursAt(Text(id, addr), ADDR_MARKER, j) {
      assert j >= 36 ==> !OccursAt(id, ADDR_MARKER, j - 36);
      NoEarlier(id, addr, j);
    }
    IndexIs(Text(id, addr), ADDR_MARKER, 0, first);
  }

  lemma AddrFoundInside(id: string, addr: string, k: nat)
    requires Plain(id) && k == IndexFrom(id, ADDR_MARKER, 0)
    ensures k + 5 <= |id| && IndexFrom(Text(id, addr), ADDR_MARKER, 0) == 36 + k
  {
    hide OccursAt, IndexFrom, Text, Plain;
    OccursWithin(id, k);
    AddrInsideId(id, addr, k);
    FirstAddr(id, addr, 36 + k);
  }

  lemma AddrFoundAfter(id: string, addr: string)
    requires Plain(id) && IndexFrom(id, ADDR_MARKER, 0) < 0
    ensures IndexFrom(Text(id, addr), ADDR_MARKER, 0) == 38 + |id|
  {
    hide OccursAt, IndexFrom, Text, Plain;
    Landmarks(id, addr);
    OccursFromSlice(Text(id, addr), 38 + |id|);
    FirstAddr(id, addr, 38 + |id|);
  }

  lemma OccursFromSlice(t: string, i: nat)
    requires i + 5 <= |t| && t[i..i + 5] == ADDR_MARKER
    ensures OccursAt(t, ADDR_MARKER, i)
  {
  }

  lemma OccursWithin(s: string, k: int)
    requires OccursAt(s, ADDR_MARKER, k)
    ensures 0 <= k && k + 5 <= |s|
  {
  }

  lemma NotAtSpace(t: string, j: int)
    requires 0 <= j < |t| && t[j] == ' '
    ensures !OccursAt(t, ADDR_MARKER, j)
  {
    if OccursAt(t, ADDR_MARKER, j) {
      AddrChars(t, j);
    }
  }

  /** What the reader takes for the address. */
  function AddressRead(id: string, addr: string): string
  {
    var k := IndexFrom(id, ADDR_MARKER, 0);
    if k < 0 then addr else if k + 5 == |id| then " addr=" else ""
  }

  lemma ReadsBetweenQuotes(t: string, start: nat, close: nat)
    requires IndexFrom(t, ADDR_MARKER, 0) == start && start + 6 <= close < |t| && t[start + 5] == '"'
    requires IndexFrom(t, "\"", start + 6) == close
    ensures ParseQuotedValue(t, ADDR_MARKER) == t[start + 6..close]
  {
    hide IndexFrom;
  }

  lemma ReadsNothing(t: string, start: nat)
    requires IndexFrom(t, ADDR_MARKER, 0) == start && start + 5 < |t| && t[start + 5] != '"'
    ensures ParseQuotedValue(t, ADDR_MARKER) == ""
  {
    hide IndexFrom;
  }

  /** An id without "addr=": the address is read. */
  lemma ReadsAddress(id: string, addr: string)
    requires Plain(id) && Plain(addr) && IndexFrom(id, ADDR_MARKER, 0) < 0
    ensures ParseQuotedValue(Text(id, addr), ADDR_MARKER) == addr
  {
    hide OccursAt, IndexFrom, Text, ParseQuotedValue;
    var t, c := Text(id, addr), 36 + |id|;
    Landmarks(id, addr);
    AddrFoundAfter(id, addr);
    assert forall i :: c + 8 <= i < c + 8 + |addr| ==> t[i] == t[c + 8..c + 8 + |addr|][i - c - 8];
    NextQuote(t, c + 8, c + 8 + |addr|);
    ReadsBetweenQuotes(t, c + 2, c + 8 + |addr|);
  }

  /** An id that ends in its first "addr=": the text between the id and the address is read. */
  lemma ReadsGap(id: string, addr: string)
    requires Plain(id) && IndexFrom(id, ADDR_MARKER, 0) >= 0 && IndexFrom(id, ADDR_MARKER, 0) + 5 == |id|
    ensures ParseQuotedValue(Text(id, addr), ADDR_MARKER) == " addr="
  {
    hide OccursAt, IndexFrom, Text, ParseQuotedValue, Plain;
    var t, c := Text(id, addr), 36 + |id|;
    Landmarks(id, addr);
    AddrFoundInside(id, addr, |id| - 5);
    assert forall i :: c + 2 <= i < c + 7 ==> t[i] == t[c + 2..c + 7][i - c - 2];
    NextQuote(t, c + 1, c + 7);
    ReadsBetweenQuotes(t, c - 5, c + 7);
    assert t[c + 1..c + 7] == [t[c + 1]] + t[c + 2..c + 7];
  }

  /** An id with "addr=" earlier: nothing is read. */
  lemma ReadsInside(id: string, addr: string, k: nat)
    requires Plain(id) && k == IndexFrom(id, ADDR_MARKER, 0) && k + 5 != |id|
    ensures ParseQuotedValue(Text(id, addr), ADDR_MARKER) == ""
  {
    hide OccursAt, IndexFrom, Text, ParseQuotedValue;
    Landmarks(id, addr);
    AddrFoundInside(id, addr, k);
    assert Text(id, addr)[36 + k + 5] == Text(id, addr)[36..36 + |id|][k + 5];
    ReadsNothing(Text(id, addr), 36 + k);
  }

  lemma AddrReadsBack(id: string, addr: string)
    requires Plain(id) && Plain(addr)
    ensures ParseQuotedValue(Text(id, addr), ADDR_MARKER) == AddressRead(id, addr)
  {
    hide OccursAt, IndexFrom, Text, ParseQuotedValue, Plain;
    var k := IndexFrom(id, ADDR_MARKER, 0);
    if k < 0 {
      ReadsAddress(id, addr);
    } else if k + 5 == |id| {
      ReadsGap(id, addr);
    } else {
      ReadsInside(id, addr, k);
    }
  }

  /** Printing a leader hint and parsing it: the id always comes back; the address does exactly when the id does not
      contain "addr=" (or the address happens to be what the reader takes for it then). */
  lemma HintRoundTrip(id: string, addr: string, quote: string -> string)
    requires Plain(id) && Plain(addr) && quote(id) == Quoted(id) && quote(addr) == Quoted(addr)
    ensures ErrorText(id, addr, quote) ==
            if id == "" && addr == "" then "raft node is not leader"
            else "raft node is not leader: leader id=\"" + id + "\" addr=\"" + addr + "\""
    ensures ParseLeaderHint(ErrorText(id, addr, quote)) == (id, AddressRead(id, addr))
    ensures ParseLeaderHint(ErrorText(id, addr, quote)) == (id, addr) <==>
            IndexFrom(id, ADDR_MARKER, 0) < 0 || addr == AddressRead(id, "")
  {
    hide *;
    ErrorTextIs(id, addr, quote);
    Spelled(id, addr);
    AddressReadPlain(id, addr);
    HintOf(ErrorText(id, addr, quote));
    if id == "" && addr == "" {
      NoMarkers();
    } else {
      IdReadsBack(id, addr);
      AddrReadsBack(id, addr);
    }
  }

  lemma Spelled(id: string, addr: string)
    ensures PREFIX == "raft node is not leader"
    ensures Text(id, addr) == "raft node is not leader: leader id=\"" + id + "\" addr=\"" + addr + "\""
  {
    assert HEAD + "\"" == "raft node is not leader: leader id=\"";
    assert "\"" + " addr=" + "\"" == "\" addr=\"";
  }

  lemma HintOf(t: string)
    ensures ParseLeaderHint(t) == (ParseQuotedValue(t, ID_MARKER), ParseQuotedValue(t, ADDR_MARKER))
  {
    hide ParseQuotedValue;
  }

  lemma AddressReadPlain(id: string, addr: string)
    ensures AddressRead(id, addr) == addr <==> IndexFrom(id, ADDR_MARKER, 0) < 0 || addr == AddressRead(id, "")
  {
    hide IndexFrom;
  }

  lemma ErrorTextIs(id: string, addr: string, quote: string -> string)
    requires quote(id) == Quoted(id) && quote(addr) == Quoted(addr)
    ensures ErrorText(id, addr, quote) == if id == "" && addr == "" then PREFIX else Text(id, addr)
    ensures PREFIX <= ErrorText(id, addr, quote)
  {
    hide Quoted;
    assert PREFIX + ": leader id=" == HEAD;
    assert PREFIX <= HEAD;
  }

  lemma PrefixHasNone(j: int)
    ensures !OccursAt(PREFIX, ID_MARKER, j) && !OccursAt(PREFIX, ADDR_MARKER, j)
  {
    assert '=' !in PREFIX;
    if OccursAt(PREFIX, ADDR_MARKER, j) {
      AddrChars(PREFIX, j);
    }
    if OccursAt(PREFIX, ID_MARKER, j) {
      IdChars(PREFIX, j);
    }
  }

  lemma NoMarkers()
    ensures ParseLeaderHint(PREFIX) == ("", "") && AddressRead("", "") == ""
  {
    hide IndexFrom, OccursAt;
    forall j | 0 <= j ensures !OccursAt(PREFIX, ID_MARKER, j) && !OccursAt(PREFIX, ADDR_MARKER, j) {
      PrefixHasNone(j);
    }
  }
}
