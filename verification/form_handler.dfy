/** The waitlist form of the navigation bar: the local email check, the
    2000 ms submission gate, the classification of the endpoint's reply and
    the two marker classes ("error", "success") of the email input.

    The HTTP request itself is not modelled: a submission that passes the
    local checks ends in `Sending(email)`, and the reply (or the exception
    thrown instead of one) is handed back to `Complete`. */
module WaitlistForm {
  import opened Optional

  // ---------------------------------------------------------------------
  // ECMAScript whitespace
  // ---------------------------------------------------------------------

  /** WhiteSpace and LineTerminator code points of ECMAScript: the set that
      both `\s` in a regular expression and `String.prototype.trim` use. */
  predicate IsSpace(c: char) {
    || ('\t' <= c <= '\r') || c == ' ' || c == '\U{00A0}' || c == '\U{1680}'
    || ('\U{2000}' <= c <= '\U{200A}') || c == '\U{2028}' || c == '\U{2029}'
    || c == '\U{202F}' || c == '\U{205F}' || c == '\U{3000}' || c == '\U{FEFF}'
  }

  predicate AllSpace(s: string) {
    forall i :: 0 <= i < |s| ==> IsSpace(s[i])
  }

  /** No whitespace at either end (the empty string qualifies). */
  predicate Trimmed(s: string) {
    s == [] || (!IsSpace(s[0]) && !IsSpace(s[|s| - 1]))
  }

  /** Drops leading whitespace: the result is a suffix of `s` behind an
      all-whitespace prefix, and does not itself start with whitespace. */
  function TrimStart(s: string): (r: string)
    ensures |r| <= |s| && r == s[|s| - |r|..]
    ensures AllSpace(s[..|s| - |r|])
    ensures r == [] || !IsSpace(r[0])
    decreases |s|
  {
    if |s| > 0 && IsSpace(s[0]) then
      var s' := s[1..];
      var r := TrimStart(s');
      var n := |s| - |r|;
      assert s'[n - 1..] == s[n..];
      assert AllSpace(s[..n]) by {
        forall i | 0 <= i < n ensures IsSpace(s[i]) {
          if i > 0 { assert s[i] == s'[..n - 1][i - 1]; }
        }
      }
      r
    else
      s
  }

  /** Drops trailing whitespace: the result is a prefix of `s` in front of an
      all-whitespace suffix, and does not itself end with whitespace. */
  function TrimEnd(s: string): (r: string)
    ensures |r| <= |s| && r == s[..|r|]
    ensures AllSpace(s[|r|..])
    ensures r == [] || !IsSpace(r[|r| - 1])
    decreases |s|
  {
    if |s| > 0 && IsSpace(s[|s| - 1]) then
      var s' := s[..|s| - 1];
      var r := TrimEnd(s');
      assert s'[..|r|] == s[..|r|];
      assert AllSpace(s[|r|..]) by {
        forall i | |r| <= i < |s| ensures IsSpace(s[i]) {
          if i < |s| - 1 { assert s[i] == s'[|r|..][i - |r|]; }
        }
      }
      r
    else
      s
  }

  /** How many whitespace characters `s` starts with. */
  function LeadingSpaces(s: string): (n: nat)
    ensures n <= |s| && AllSpace(s[..n])
    ensures n < |s| ==> !IsSpace(s[n])
  {
    |s| - |TrimStart(s)|
  }

  /** `String.prototype.trim`: whitespace is removed from both ends. */
  function Trim(s: string): (r: string)
    ensures Trimmed(r) && |r| <= |s|
  {
    var t := TrimStart(s);
    var r := TrimEnd(t);
    assert r != [] ==> r[0] == t[0];
    r
  }

  /** The trimmed string is the part of `s` right behind its leading
      whitespace, and only whitespace follows it in `s`. */
  lemma TrimIsFramed(s: string)
    ensures var i := LeadingSpaces(s); var r := Trim(s);
            i + |r| <= |s| && s[i..i + |r|] == r && AllSpace(s[i + |r|..])
  {
    var t := TrimStart(s);
    var r := TrimEnd(t);
    var i := |s| - |t|;
    assert LeadingSpaces(s) == i && Trim(s) == r;
    assert t == s[i..];
    assert s[i..i + |r|] == t[..|r|] == r;
    assert s[i + |r|..] == t[|r|..];
    assert AllSpace(t[|r|..]);
  }

  lemma {:induction false} TrimStartOfSpaces(a: string, m: string)
    requires AllSpace(a)
    requires m == [] || !IsSpace(m[0])
    ensures TrimStart(a + m) == m
    decreases |a|
  {
    if a == [] {
      assert a + m == m;
    } else {
      assert (a + m)[1..] == a[1..] + m;
      TrimStartOfSpaces(a[1..], m);
    }
  }

  lemma {:induction false} TrimEndOfSpaces(m: string, b: string)
    requires AllSpace(b)
    requires m == [] || !IsSpace(m[|m| - 1])
    ensures TrimEnd(m + b) == m
    decreases |b|
  {
    if b == [] {
      assert m + b == m;
    } else {
      assert (m + b)[..|m + b| - 1] == m + b[..|b| - 1];
      TrimEndOfSpaces(m, b[..|b| - 1]);
    }
  }

  /** The frame of `Trim` is unique: whatever whitespace surrounds a
      trimmed string, trimming gives back exactly that string. */
  lemma TrimOfFramed(a: string, m: string, b: string)
    requires AllSpace(a) && AllSpace(b) && Trimmed(m)
    ensures Trim(a + m + b) == m
  {
    if m == [] {
      assert a + m + b == a + b;
      TrimStartOfSpaces(a + b, []);
      assert a + b + [] == a + b;
      assert TrimStart(a + b) == [];
      assert TrimEnd([]) == [];
    } else {
      assert a + m + b == a + (m + b);
      TrimStartOfSpaces(a, m + b);
      TrimEndOfSpaces(m, b);
    }
  }

  // ---------------------------------------------------------------------
  // The email pattern /^[^\s@]+@[^\s@]+\.[^\s@]+$/
  // ---------------------------------------------------------------------

  /** A character of the class `[^\s@]`. */
  predicate IsEmailChar(c: char) {
    !IsSpace(c) && c != '@'
  }

  predicate AllEmailChars(s: string) {
    forall i :: 0 <= i < |s| ==> IsEmailChar(s[i])
  }

  /** One `[^\s@]+` run. */
  predicate IsSegment(s: string) {
    |s| > 0 && AllEmailChars(s)
  }

  /** The language of the pattern, stated by positions: a non-empty local
      part, '@' at `k`, a non-empty domain, '.' at `j`, a non-empty top
      level part, all three free of whitespace and '@'. The domain may
      itself contain dots. */
  ghost predicate EmailShape(s: string) {
    exists k, j :: ShapeAt(s, k, j)
  }

  /** The split of `EmailShape` with the '@' at `k` and the '.' at `j`. */
  ghost predicate ShapeAt(s: string, k: int, j: int) {
    && 0 < k && k + 1 < j < |s| - 1 && s[k] == '@' && s[j] == '.'
    && IsSegment(s[..k]) && IsSegment(s[k + 1..j]) && IsSegment(s[j + 1..])
  }

  /** States of a left-to-right matcher for the pattern. `Tld` is the only
      accepting state; `Reject` is a sink. */
  datatype ScanState = Start | Local | AfterAt | Domain | Dot | Tld | Reject

  /** One character of input. Whitespace never matches, '@' matches only
      right after the local part, any other character of the class keeps
      a live state live, and the accepting state is entered only from the
      '.' before the top level part or from itself. */
  function Step(q: ScanState, c: char): (r: ScanState)
    ensures IsSpace(c) ==> r == Reject
    ensures c == '@' ==> (r != Reject <==> q == Local)
    ensures q != Reject && IsEmailChar(c) ==> r != Reject
    ensures r == Tld ==> q == Dot || q == Tld
  {
    match q
    case Start => if IsEmailChar(c) then Local else Reject
    case Local => if c == '@' then AfterAt else if IsEmailChar(c) then Local else Reject
    case AfterAt => if IsEmailChar(c) then Domain else Reject
    case Domain => if c == '.' then Dot else if IsEmailChar(c) then Domain else Reject
    case Dot => if IsEmailChar(c) then Tld else Reject
    case Tld => if IsEmailChar(c) then Tld else Reject
    case Reject => Reject
  }

  function Run(q: ScanState, s: string): ScanState
    decreases |s|
  {
    if |s| == 0 then q else Run(Step(q, s[0]), s[1..])
  }

  /** `isValidEmail`: the matcher ends in its accepting state, which is
      the case exactly for the strings of the pattern's language. */
  function IsValidEmail(s: string): (b: bool)
    ensures b <==> EmailShape(s)
  {
    AcceptsExactlyShape(s);
    Run(Start, s) == Tld
  }

  /** Some '.' at a position in [lo, hi). */
  ghost predicate DotWithin(s: string, lo: int, hi: int) {
    exists p :: lo <= p < hi && 0 <= p < |s| && s[p] == '.'
  }

  /** What the matcher must still read after the '@'. */
  ghost predicate IsDomainPart(w: string) {
    AllEmailChars(w) && DotWithin(w, 1, |w| - 1)
  }

  /** A mismatch is final: nothing after it is accepted. */
  lemma {:induction false} RunReject(w: string)
    ensures Run(Reject, w) == Reject
    decreases |w|
  {
    if |w| > 0 {
      RunReject(w[1..]);
    }
  }

  lemma {:induction false} RunTld(w: string)
    ensures Run(Tld, w) == Tld <==> AllEmailChars(w)
    decreases |w|
  {
    if |w| > 0 {
      if IsEmailChar(w[0]) {
        RunTld(w[1..]);
        assert AllEmailChars(w) <==> AllEmailChars(w[1..]) by {
          if AllEmailChars(w[1..]) {
            forall i | 0 <= i < |w| ensures IsEmailChar(w[i]) {
              if i > 0 { assert w[i] == w[1..][i - 1]; }
            }
          }
        }
      } else {
        RunReject(w[1..]);
      }
    }
  }

  lemma {:induction false} RunDot(w: string)
    ensures Run(Dot, w) == Tld <==> |w| > 0 && AllEmailChars(w)
  {
    if |w| > 0 {
      if IsEmailChar(w[0]) {
        RunTld(w[1..]);
        AllEmailCharsCons(w);
      } else {
        RunReject(w[1..]);
      }
    }
  }

  lemma AllEmailCharsCons(w: string)
    requires |w| > 0
    ensures AllEmailChars(w) <==> IsEmailChar(w[0]) && AllEmailChars(w[1..])
  {
    if IsEmailChar(w[0]) && AllEmailChars(w[1..]) {
      forall i | 0 <= i < |w| ensures IsEmailChar(w[i]) {
        if i > 0 { assert w[i] == w[1..][i - 1]; }
      }
    }
  }

  lemma {:induction false} RunDomain(w: string)
    ensures Run(Domain, w) == Tld <==> AllEmailChars(w) && DotWithin(w, 0, |w| - 1)
    decreases |w|
  {
    if |w| == 0 {
      assert !DotWithin(w, 0, |w| - 1);
    } else {
      var c := w[0];
      var w' := w[1..];
      AllEmailCharsCons(w);
      if c == '.' {
        RunDot(w');
        if |w'| > 0 && AllEmailChars(w') {
          assert DotWithin(w, 0, |w| - 1);
        }
        if DotWithin(w, 0, |w| - 1) {
          var p :| 0 <= p < |w| - 1 && 0 <= p < |w| && w[p] == '.';
          assert |w'| > 0;
        }
      } else if IsEmailChar(c) {
        RunDomain(w');
        if DotWithin(w', 0, |w'| - 1) {
          var p :| 0 <= p < |w'| - 1 && 0 <= p < |w'| && w'[p] == '.';
          assert w[p + 1] == '.';
        }
        if DotWithin(w, 0, |w| - 1) {
          var p :| 0 <= p < |w| - 1 && 0 <= p < |w| && w[p] == '.';
          assert p != 0;
          assert w'[p - 1] == '.';
        }
      } else {
        RunReject(w');
      }
    }
  }

  lemma {:induction false} RunAfterAt(w: string)
    ensures Run(AfterAt, w) == Tld <==> IsDomainPart(w)
  {
    if |w| == 0 {
      assert !DotWithin(w, 1, |w| - 1);
    } else {
      var w' := w[1..];
      AllEmailCharsCons(w);
      if IsEmailChar(w[0]) {
        RunDomain(w');
        if DotWithin(w', 0, |w'| - 1) {
          var p :| 0 <= p < |w'| - 1 && 0 <= p < |w'| && w'[p] == '.';
          assert w[p + 1] == '.';
        }
        if DotWithin(w, 1, |w| - 1) {
          var p :| 1 <= p < |w| - 1 && 0 <= p < |w| && w[p] == '.';
          assert w'[p - 1] == '.';
        }
      } else {
        RunReject(w');
      }
    }
  }

  /** What the matcher must read once it has seen at least one local
      character: more local characters, '@', then a domain part. */
  ghost predicate LocalRest(w: string) {
    exists k :: RestSplitAt(w, k)
  }

  ghost predicate RestSplitAt(w: string, k: int) {
    0 <= k < |w| && w[k] == '@' && AllEmailChars(w[..k]) && IsDomainPart(w[k + 1..])
  }

  lemma LocalRestAtSign(w: string)
    requires |w| > 0 && w[0] == '@'
    ensures LocalRest(w) <==> IsDomainPart(w[1..])
  {
    if IsDomainPart(w[1..]) {
      assert w[..0] == [];
      assert w[0 + 1..] == w[1..];
      assert RestSplitAt(w, 0);
    }
    if LocalRest(w) {
      var k :| RestSplitAt(w, k);
      if k > 0 {
        assert w[..k][0] == '@';
      }
    }
  }

  lemma LocalRestChar(w: string)
    requires |w| > 0 && IsEmailChar(w[0])
    ensures LocalRest(w) <==> LocalRest(w[1..])
  {
    var w' := w[1..];
    if LocalRest(w') {
      var k :| RestSplitAt(w', k);
      AllEmailCharsCons(w[..k + 1]);
      assert w[..k + 1][1..] == w'[..k];
      assert w[k + 1 + 1..] == w'[k + 1..];
      assert w[k + 1] == '@';
      assert RestSplitAt(w, k + 1);
    }
    if LocalRest(w) {
      var k :| RestSplitAt(w, k);
      assert k > 0;
      AllEmailCharsCons(w[..k]);
      assert w[..k][1..] == w'[..k - 1];
      assert w'[k - 1 + 1..] == w[k + 1..];
      assert w'[k - 1] == '@';
      assert RestSplitAt(w', k - 1);
    }
  }

  lemma LocalRestOther(w: string)
    requires |w| > 0 && !IsEmailChar(w[0]) && w[0] != '@'
    ensures !LocalRest(w)
  {
  }

  lemma {:induction false} RunLocal(w: string)
    ensures Run(Local, w) == Tld <==> LocalRest(w)
    decreases |w|
  {
    if |w| > 0 {
      if w[0] == '@' {
        RunAfterAt(w[1..]);
        LocalRestAtSign(w);
      } else if IsEmailChar(w[0]) {
        RunLocal(w[1..]);
        LocalRestChar(w);
      } else {
        RunReject(w[1..]);
        LocalRestOther(w);
      }
    }
  }

  /** The local part, '@' and a domain part, as seen by the matcher from
      its first state. */
  lemma StartIffLocalRest(s: string)
    requires |s| > 0 && IsEmailChar(s[0])
    ensures EmailShape(s) <==> LocalRest(s[1..])
  {
    if LocalRest(s[1..]) {
      ShapeFromLocalRest(s);
    }
    if EmailShape(s) {
      LocalRestFromShape(s);
    }
  }

  lemma AllEmailCharsSlice(w: string, lo: int, hi: int)
    requires 0 <= lo <= hi <= |w| && AllEmailChars(w)
    ensures AllEmailChars(w[lo..hi])
  {
    forall i | 0 <= i < hi - lo ensures IsEmailChar(w[lo..hi][i]) {
      assert w[lo..hi][i] == w[lo + i];
    }
  }

  lemma ShapeFromLocalRest(s: string)
    requires |s| > 0 && IsEmailChar(s[0]) && LocalRest(s[1..])
    ensures EmailShape(s)
  {
    var s' := s[1..];
    var k :| RestSplitAt(s', k);
    var K := k + 1;
    var d := s[K + 1..];
    assert d == s'[k + 1..];
    var p :| 1 <= p < |d| - 1 && 0 <= p < |d| && d[p] == '.';
    var J := K + 1 + p;
    assert s[K] == '@';
    assert s[J] == d[p];
    AllEmailCharsCons(s[..K]);
    assert s[..K][1..] == s'[..k];
    assert s[K + 1..J] == d[..p];
    assert s[J + 1..] == d[p + 1..];
    AllEmailCharsSlice(d, 0, p);
    AllEmailCharsSlice(d, p + 1, |d|);
    assert d[p + 1..|d|] == d[p + 1..];
    assert ShapeAt(s, K, J);
  }

  lemma LocalRestFromShape(s: string)
    requires |s| > 0 && EmailShape(s)
    ensures LocalRest(s[1..])
  {
    var s' := s[1..];
    var k, j :| ShapeAt(s, k, j);
    var d := s[k + 1..];
    var p := j - (k + 1);
    assert d[p] == '.';
    assert AllEmailChars(d) by {
      forall i | 0 <= i < |d| ensures IsEmailChar(d[i]) {
        if i < p {
          assert d[i] == s[k + 1..j][i];
        } else if i > p {
          assert d[i] == s[j + 1..][i - p - 1];
        }
      }
    }
    assert DotWithin(d, 1, |d| - 1);
    assert s'[k - 1] == '@';
    AllEmailCharsCons(s[..k]);
    assert s[..k][1..] == s'[..k - 1];
    assert s'[k - 1 + 1..] == d;
    assert RestSplitAt(s', k - 1);
  }

  /** The matcher accepts exactly the language of the pattern. */
  lemma AcceptsExactlyShape(s: string)
    ensures Run(Start, s) == Tld <==> EmailShape(s)
  {
    if |s| == 0 {
    } else if !IsEmailChar(s[0]) {
      RunReject(s[1..]);
    } else {
      RunLocal(s[1..]);
      StartIffLocalRest(s);
    }
  }

  /** Any three segments joined as local '@' domain '.' tld form a valid
      address. */
  lemma ValidEmailFromParts(local: string, domain: string, tld: string)
    requires IsSegment(local) && IsSegment(domain) && IsSegment(tld)
    ensures IsValidEmail(local + "@" + domain + "." + tld)
  {
    var s := local + "@" + domain + "." + tld;
    var k := |local|;
    var j := k + 1 + |domain|;
    assert s[k] == '@';
    assert s[j] == '.';
    assert s[..k] == local;
    assert s[k + 1..j] == domain;
    assert s[j + 1..] == tld;
    assert ShapeAt(s, k, j);
  }

  /** The reference cases: one accepted address, three rejected inputs. */
  lemma ShortAddressAccepted()
    ensures IsValidEmail("a@b.co")
  {
  }

  lemma EmptyRejected()
    ensures !IsValidEmail("")
  {
  }

  lemma NoAtRejected()
    ensures !IsValidEmail("not-an-email")
  {
    NoAtNeverAccepted(Start, "not-an-email");
  }

  /** Without an '@' the matcher never leaves the local part. */
  lemma {:induction false} NoAtNeverAccepted(q: ScanState, w: string)
    requires q == Start || q == Local || q == Reject
    requires '@' !in w
    ensures Run(q, w) != Tld
    decreases |w|
  {
    if |w| > 0 {
      assert w[0] != '@';
      assert w == [w[0]] + w[1..];
      NoAtNeverAccepted(Step(q, w[0]), w[1..]);
    }
  }

  lemma NoTldRejected()
    ensures !IsValidEmail("a@b")
  {
  }

  // ---------------------------------------------------------------------
  // Marker classes of the email input
  // ---------------------------------------------------------------------

  const ErrorClass := "error"
  const SuccessClass := "success"
  const StateClasses: set<string> := {ErrorClass, SuccessClass}

  /** `setInputState`: of the two marker classes exactly the requested one
      remains, every other class is kept, and a non-empty state is added. */
  function SetInputState(classes: set<string>, state: string): (r: set<string>)
    ensures r * StateClasses == {state} * StateClasses
    ensures forall c :: c !in StateClasses && c != state ==> (c in r <==> c in classes)
    ensures state != "" ==> state in r
    ensures state == "" ==> ("" in r <==> "" in classes)
  {
    var cleared := classes - StateClasses;
    if state != "" then cleared + {state} else cleared
  }

  /** `clearInputState`: neither marker remains, nothing else changes. */
  function ClearInputState(classes: set<string>): (r: set<string>)
    ensures r * StateClasses == {}
    ensures forall c :: c !in StateClasses ==> (c in r <==> c in classes)
  {
    classes - StateClasses
  }

  /** Setting a marker and then clearing leaves what clearing alone leaves. */
  lemma ClearUndoesSet(classes: set<string>, state: string)
    requires state in StateClasses
    ensures ClearInputState(SetInputState(classes, state)) == ClearInputState(classes)
  {
  }

  /** Marker updates do not accumulate: the last one wins. */
  lemma SetInputStateLastWins(classes: set<string>, first: string, second: string)
    requires first in StateClasses
    ensures SetInputState(SetInputState(classes, first), second) == SetInputState(classes, second)
  {
  }

  // ---------------------------------------------------------------------
  // Error message
  // ---------------------------------------------------------------------

  /** The warning sign U+26A0 followed by variation selector U+FE0F. */
  const WarningSign: string := ['\U{26A0}', '\U{FE0F}']

  /** `showError`'s cleaning step, a replace of the pattern `^⚠️\s*` by
      nothing: one leading warning sign and the whitespace after it are
      removed; any other message is shown as is. */
  function CleanMessage(message: string): (r: string)
    ensures |r| <= |message| && r == message[|message| - |r|..]
    ensures |message| < |WarningSign| || message[..|WarningSign|] != WarningSign ==> r == message
  {
    if |message| >= |WarningSign| && message[..|WarningSign|] == WarningSign then
      TrimStart(message[|WarningSign|..])
    else
      message
  }

  /** The removed prefix is exactly the warning sign and a run of
      whitespace, and the displayed text starts with the first
      non-whitespace character after it. */
  lemma CleanMessageStripsPrefix(spaces: string, body: string)
    requires AllSpace(spaces)
    requires body == [] || !IsSpace(body[0])
    ensures CleanMessage(WarningSign + spaces + body) == body
  {
    var m := WarningSign + spaces + body;
    assert m[..|WarningSign|] == WarningSign;
    assert m[|WarningSign|..] == spaces + body;
    TrimStartOfSpaces(spaces, body);
  }

  // ---------------------------------------------------------------------
  // Form state and transitions
  // ---------------------------------------------------------------------

  const DebounceMs := 2000
  const InvalidEmailMessage := "Please enter a valid email address"
  const RetryMessage := "Something went wrong. Please try again."
  const NetworkMessage := "Network error." + " Please check your connection and try again."
  /** The text content of the "already listed" message. */
  const MagicMessage := "Plot twist" + " - this email is already on our " + "magic list" + "!"
  const AlreadyExists := "Email already exists"
  const ShowClass := "show"
  const MagicClass := "magic-message"

  /** The handler's fields together with the parts of the DOM it writes:
      the input's value and classes, the error box's classes and text, and
      whether the success box carries the "show" class. */
  datatype Form = Form(
    isSubmitting: bool,
    lastSubmissionTime: int,
    inputValue: string,
    inputClasses: set<string>,
    errorClasses: set<string>,
    errorText: string,
    successShown: bool)

  /** The form as the constructor leaves it. Only the state classes of the
      input and the error box are tracked, so the class sets start empty;
      the fixed classes the elements carry in the page ("email-input",
      "error-message") are left out, and no operation touches them. */
  function NewForm(inputValue: string, successShown: bool): (f: Form)
    ensures !f.isSubmitting && f.lastSubmissionTime == 0
  {
    Form(false, 0, inputValue, {}, {}, "", successShown)
  }

  /** `canSubmit` at clock reading `now`. */
  predicate CanSubmit(f: Form, now: int) {
    !f.isSubmitting && now - f.lastSubmissionTime >= DebounceMs
  }

  /** The window is half-open: an idle form refuses a submit 1999 ms after
      the last one and accepts it at exactly 2000 ms; a form with a request
      in flight refuses at any time. */
  lemma GateBoundary(f: Form)
    ensures !f.isSubmitting ==> CanSubmit(f, f.lastSubmissionTime + DebounceMs)
    ensures !CanSubmit(f, f.lastSubmissionTime + DebounceMs - 1)
    ensures f.isSubmitting ==> forall now :: !CanSubmit(f, now)
  {
  }

  /** With the state unchanged, an open gate stays open as the clock
      advances. */
  lemma GateStaysOpen(f: Form, now: int, later: int)
    requires CanSubmit(f, now) && now <= later
    ensures CanSubmit(f, later)
  {
  }

  /** `hideError`: the error box loses "show" and "magic-message"; the input
      markers are cleared unless the success box is showing. */
  function HideError(f: Form): (r: Form)
    ensures ShowClass !in r.errorClasses && MagicClass !in r.errorClasses
    ensures !f.successShown ==> r.inputClasses * StateClasses == {}
    ensures f.successShown ==> r.inputClasses == f.inputClasses
    ensures r.isSubmitting == f.isSubmitting && r.lastSubmissionTime == f.lastSubmissionTime
    ensures r.inputValue == f.inputValue && r.errorText == f.errorText && r.successShown == f.successShown
  {
    var errorClasses := f.errorClasses - {ShowClass, MagicClass};
    var inputClasses := if !f.successShown then ClearInputState(f.inputClasses) else f.inputClasses;
    f.(errorClasses := errorClasses, inputClasses := inputClasses)
  }

  /** `showError`: the cleaned message is shown in the plain error style and
      the input is marked "error". The hide five seconds later is a
      separate `HideError` step. */
  function ShowError(f: Form, message: string): (r: Form)
    ensures r.errorText == CleanMessage(message)
    ensures r.inputClasses * StateClasses == {ErrorClass}
    ensures ShowClass in r.errorClasses && MagicClass !in r.errorClasses
    ensures r.isSubmitting == f.isSubmitting && r.lastSubmissionTime == f.lastSubmissionTime
    ensures r.inputValue == f.inputValue
  {
    f.(errorText := CleanMessage(message),
       inputClasses := SetInputState(f.inputClasses, ErrorClass),
       errorClasses := f.errorClasses - {MagicClass} + {ShowClass})
  }

  /** `showMagicMessage`: the friendly "already listed" text in the magic
      style, with the input marked "success". */
  function ShowMagicMessage(f: Form): (r: Form)
    ensures r.errorText == MagicMessage
    ensures r.inputClasses * StateClasses == {SuccessClass}
    ensures ShowClass in r.errorClasses && MagicClass in r.errorClasses
    ensures r.isSubmitting == f.isSubmitting && r.inputValue == f.inputValue
  {
    f.(errorText := MagicMessage,
       inputClasses := SetInputState(f.inputClasses, SuccessClass),
       errorClasses := f.errorClasses + {MagicClass, ShowClass})
  }

  /** `showSuccess`: any error is hidden and the input is marked "success".
      The modal it builds is not modelled. */
  function ShowSuccess(f: Form): (r: Form)
    ensures r.inputClasses * StateClasses == {SuccessClass}
    ensures ShowClass !in r.errorClasses
    ensures r.isSubmitting == f.isSubmitting && r.inputValue == f.inputValue
  {
    var g := HideError(f);
    g.(inputClasses := SetInputState(g.inputClasses, SuccessClass))
  }

  /** The "input" listener: the typed value replaces the old one, the
      markers are cleared and the error box is hidden. */
  function OnInput(f: Form, value: string): (r: Form)
    ensures r.inputValue == value
    ensures r.inputClasses * StateClasses == {}
    ensures ShowClass !in r.errorClasses
    ensures r.isSubmitting == f.isSubmitting && r.lastSubmissionTime == f.lastSubmissionTime
  {
    HideError(f.(inputValue := value, inputClasses := ClearInputState(f.inputClasses)))
  }

  /** How far a submit event got before it returned or awaited the network. */
  datatype Attempt = Blocked | Invalid | Sending(email: string)

  /** The synchronous part of `handleSubmit` at clock reading `now`. */
  function Submit(f: Form, now: int): (r: (Form, Attempt))
    ensures r.1 == Blocked <==> !CanSubmit(f, now)
    ensures r.1 == Blocked ==> r.0 == f
    ensures r.1 != Blocked ==> r.0.lastSubmissionTime == now && r.0.inputValue == f.inputValue
    ensures r.1.Sending? <==> CanSubmit(f, now) && Trim(f.inputValue) != "" && IsValidEmail(Trim(f.inputValue))
    ensures r.1.Sending? ==> r.1.email == Trim(f.inputValue) && r.0.isSubmitting
    ensures r.1 == Invalid ==>
              !r.0.isSubmitting && r.0.errorText == InvalidEmailMessage && ErrorClass in r.0.inputClasses
  {
    if !CanSubmit(f, now) then
      (f, Blocked)
    else
      var started := f.(isSubmitting := true, lastSubmissionTime := now);
      var email := Trim(f.inputValue);
      if email == "" || !IsValidEmail(email) then
        assert CleanMessage(InvalidEmailMessage) == InvalidEmailMessage by {
          assert InvalidEmailMessage[..|WarningSign|] != WarningSign by {
            assert InvalidEmailMessage[0] != WarningSign[0];
          }
        }
        (ShowError(started.(isSubmitting := false), InvalidEmailMessage), Invalid)
      else
        (started, Sending(email))
  }

  /** What the endpoint gave back: a parsed JSON body, or an exception from
      the request or from parsing the body. */
  datatype Reply = Body(success: bool, error: Option<string>) | Thrown

  datatype Outcome = Joined | AlreadyListed | Retry | NetworkFailure

  /** The branch of the `try` block a reply takes. */
  function Classify(reply: Reply): (o: Outcome)
    ensures o == Joined <==> reply.Body? && reply.success
    ensures o == AlreadyListed <==> reply.Body? && !reply.success && reply.error == Some(AlreadyExists)
    ensures o == Retry <==> reply.Body? && !reply.success && reply.error != Some(AlreadyExists)
    ensures o == NetworkFailure <==> reply.Thrown?
  {
    match reply
    case Thrown => NetworkFailure
    case Body(success, error) =>
      if success then Joined
      else if error == Some(AlreadyExists) then AlreadyListed
      else Retry
  }

  /** The asynchronous tail of `handleSubmit`: the reply's branch runs and
      the `finally` clause releases the submission flag. */
  function Complete(f: Form, reply: Reply): (r: (Form, Outcome))
    ensures r.1 == Classify(reply)
    ensures !r.0.isSubmitting
    ensures r.0.lastSubmissionTime == f.lastSubmissionTime
    ensures r.1 == Joined ==> r.0.inputValue == "" && SuccessClass in r.0.inputClasses
    ensures r.1 != Joined ==> r.0.inputValue == f.inputValue
    ensures r.1 == AlreadyListed ==> r.0.errorText == MagicMessage && MagicClass in r.0.errorClasses
    ensures r.1 == Retry ==> r.0.errorText == RetryMessage && MagicClass !in r.0.errorClasses
    ensures r.1 == NetworkFailure ==> r.0.errorText == NetworkMessage && MagicClass !in r.0.errorClasses
  {
    var outcome := Classify(reply);
    assert RetryMessage[0] != WarningSign[0];
    assert NetworkMessage[0] == 'N';
    var g := match outcome
      case Joined => ShowSuccess(f).(inputValue := "")
      case AlreadyListed => ShowMagicMessage(f)
      case Retry => ShowError(f, RetryMessage)
      case NetworkFailure => ShowError(f, NetworkMessage);
    (g.(isSubmitting := false), outcome)
  }

  // ---------------------------------------------------------------------
  // Properties of the gate
  // ---------------------------------------------------------------------

  /** A submission that gets past the gate, whether it is then rejected
      locally or sent, blocks every submit within the next 2000 ms without any
      change of state. */
  lemma DebounceAfterAttempt(f: Form, t: int, t': int)
    requires CanSubmit(f, t)
    requires t' < t + DebounceMs
    ensures Submit(Submit(f, t).0, t') == (Submit(f, t).0, Blocked)
  {
  }

  /** The window outlives the reply: even after the request completes, a
      second submit 500 ms after the first is refused locally. */
  lemma ResubmitSoonAfterReplyIsBlocked(f: Form, t: int, reply: Reply)
    requires Submit(f, t).1.Sending?
    ensures Submit(Complete(Submit(f, t).0, reply).0, t + 500).1 == Blocked
  {
  }

  /** While a request is in flight every submit is refused, at any time. */
  lemma InFlightBlocksSubmit(f: Form, t: int, t': int)
    requires CanSubmit(f, t)
    ensures Submit(f, t).1.Sending? ==> Submit(Submit(f, t).0, t').1 == Blocked
  {
  }

  /** Once the reply is in and the window has passed, the form accepts a
      new submission again. */
  lemma GateReopens(f: Form, t: int, reply: Reply, t': int)
    requires CanSubmit(f, t) && t' >= t + DebounceMs
    ensures Submit(f, t).1.Sending? ==> CanSubmit(Complete(Submit(f, t).0, reply).0, t')
  {
  }

  /** An input that trims to nothing or fails the pattern never reaches the
      network, and leaves the form able to submit again after the window. */
  lemma InvalidNeverSends(f: Form, t: int)
    requires CanSubmit(f, t)
    requires !IsValidEmail(Trim(f.inputValue))
    ensures Submit(f, t).1 == Invalid
    ensures CanSubmit(Submit(f, t).0, t + DebounceMs)
  {
  }
}
