/** Taking up a replacement token (acceptableToken, apply and takeToken in cmd/gwatch-agent/checkin.go). */
module TokenRotation {
  import opened Wrappers
  import opened Text
  import opened Redaction
  import opened ConfigDocs

  const MIN_TOKEN := 16
  const MAX_TOKEN := 128

  predicate IsTokenChar(c: char) { c == '_' || 'a' <= c <= 'z' || 'A' <= c <= 'Z' || '0' <= c <= '9' }

  predicate Acceptable(t: string) {
    PREFIX <= t && MIN_TOKEN <= |t| <= MAX_TOKEN && forall c :: c in t ==> IsTokenChar(c)
  }

  /** A token as a JSON value: nothing in an acceptable one needs an escape. */
  function Quoted(t: string): Raw { Raw("\"" + t + "\"") }

  /** The token a restart would read from these files. */
  ghost predicate RestartReads(file: Content, bak: Content, t: string) {
    var l := LoadDoc(file, bak);
    l.Ok? && TOKEN in l.value.raw && l.value.raw[TOKEN] == Quoted(t)
  }

  class AgentRuntime {
    var token: string
    // Whether agent.json is where the token came from; no other source is ever rewritten.
    const tokenFromFile: bool
    var warnedToken: bool

    constructor (token: string, tokenFromFile: bool)
      ensures this.token == token && this.tokenFromFile == tokenFromFile && !warnedToken
    {
      this.token, this.tokenFromFile, this.warnedToken := token, tokenFromFile, false;
    }

    /** What it takes for an offer to be taken up. */
    ghost predicate TakesUp(offer: string, disk: Disk, fileWorks: bool)
      reads this, disk
    {
      Acceptable(offer) && offer != token && tokenFromFile && LoadDoc(disk.file, disk.bak).Ok? && fileWorks
    }

    /**
     * The new token is presented only once the file holds it; otherwise neither the token nor the disk
     * changes. So a token from the file stays the one a restart reads, whatever is offered and
     * whatever the disk does.
     */
    method TakeToken(disk: Disk, offer: string, fileWorks: bool, copyWorks: bool)
      modifies this`token, this`warnedToken, disk
      ensures token == if old(TakesUp(offer, disk, fileWorks)) then offer else old(token)
      ensures !old(TakesUp(offer, disk, fileWorks)) ==> disk.file == old(disk.file) && disk.bak == old(disk.bak)
      ensures old(TakesUp(offer, disk, fileWorks)) ==>
        && LoadDoc(disk.file, disk.bak).Ok?
        && LoadDoc(disk.file, disk.bak).value.raw ==
          LoadDoc(old(disk.file), old(disk.bak)).value.raw[TOKEN := Quoted(offer)]
      ensures old(RestartReads(disk.file, disk.bak, token)) || old(TakesUp(offer, disk, fileWorks)) ==>
        RestartReads(disk.file, disk.bak, token)
      ensures warnedToken == (old(warnedToken) || (Acceptable(offer) && offer != old(token) && !tokenFromFile))
    {
      if !Acceptable(offer) || token == offer { return; }
      if !tokenFromFile {
        warnedToken := true;
        return;
      }
      var ok := StoreToken(disk, Quoted(offer), fileWorks, copyWorks);
      if !ok { return; }
      token := offer;
    }

    /** The token part of an answer: white space round it does not count, and no token is no offer. */
    method Apply(disk: Disk, sent: string, fileWorks: bool, copyWorks: bool)
      modifies this`token, this`warnedToken, disk
      ensures Trim(sent) == "" ==> token == old(token) && disk.file == old(disk.file) && disk.bak == old(disk.bak)
      ensures token == if Trim(sent) != "" && old(TakesUp(Trim(sent), disk, fileWorks)) then Trim(sent) else old(token)
      ensures old(RestartReads(disk.file, disk.bak, token)) ==> RestartReads(disk.file, disk.bak, token)
    {
      var tok := Trim(sent);
      if tok != "" { TakeToken(disk, tok, fileWorks, copyWorks); }
    }
  }

  /** Where the first token of a text begins and ends. */
  lemma FirstTokenAt(s: string) returns (i: nat, j: nat)
    requires exists p :: TokenAt(s, p)
    ensures TokenAt(s, i) && (forall p :: 0 <= p < i ==> !TokenAt(s, p))
    ensures i + 10 <= j <= |s| && (forall k :: i + 4 <= k < j ==> InClass(s[k])) && (j < |s| ==> !InClass(s[j]))
  {
    var p :| TokenAt(s, p);
    i := 0;
    while !TokenAt(s, i)
      invariant i <= p && forall q :: 0 <= q < i ==> !TokenAt(s, q)
      decreases p - i
    {
      i := i + 1;
    }
    j := i + 10;
    while j < |s| && InClass(s[j])
      invariant i + 10 <= j <= |s| && forall k :: i + 4 <= k < j ==> InClass(s[k])
    {
      j := j + 1;
    }
  }

  lemma NothingLeftOfNothing(s: string)
    requires Redacted(s) == ""
    ensures s == ""
  {
  }

  /**
   * A token the agent accepts is what redaction takes for one token from its first character to its last,
   * as long as it is neither too short nor too long and has no dash in it.
   */
  lemma AcceptableIsOneToken(t: string)
    requires '[' !in t
    ensures Acceptable(t) <==> 16 <= |t| <= 128 && '-' !in t && Redacted(t) == "gwa_[token removed]"
  {
    if Acceptable(t) {
      var run := t[4..];
      assert t == "" + "gwa_" + run + "" && forall c :: c in run ==> c in t;
      TokenTakenWhole("", run, "");
    }
    if Redacted(t) == "gwa_[token removed]" {
      OneTokenOnly(t);
      if 16 <= |t| <= 128 && '-' !in t {
        forall c | c in t ensures IsTokenChar(c) {
          var k :| 0 <= k < |t| && t[k] == c;
          assert k < 4 ==> t[..4][k] == c;
        }
      }
    }
  }

  lemma OneTokenOnly(t: string)
    requires '[' !in t && Redacted(t) == "gwa_[token removed]"
    ensures |t| >= 10 && t[..4] == PREFIX && forall k :: 4 <= k < |t| ==> InClass(t[k])
  {
    var out := "gwa_[token removed]";
    assert out[4] == '[' && out[4] in out;
    if forall p :: !TokenAt(t, p) { NoTokenNoChange(t); }
    var i, j := FirstTokenAt(t);
    FirstTokenGoes(t, i, j);
    assert |t[..i] + out + Redacted(t[j..])| == i + |out| + |Redacted(t[j..])|;
    NothingLeftOfNothing(t[j..]);
    assert t[0..4] == t[..4];
  }

  /** A token this agent would take up never gets into its log, even when nobody names it. */
  lemma AcceptedIsRedacted(t: string, text: string)
    requires Acceptable(t)
    ensures !Contains(Redacted(text), t)
  {
    var out := Redacted(text);
    PassCleans(text, ByShape, ByShape);
    forall i | 0 <= i <= |out| ensures !(t <= out[i..]) {
      if t <= out[i..] {
        forall k | 0 <= k < 6 ensures InClass(out[i..][4..][k]) {
          assert out[i..][4..][k] == t[4 + k] && t[4 + k] in t;
        }
        assert PREFIX <= out[i..];
        ClassRunAtLeast(out[i..][4..], 6);
        assert false;
      }
    }
  }
}
