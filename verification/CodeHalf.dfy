/** The part of a source line before its comment. */
module CodeHalf {
  /** Python's `str.isspace` on one character. */
  predicate IsSpace(c: char) {
    var n := c as int;
    || 0x09 <= n <= 0x0D || 0x1C <= n <= 0x20 || n == 0x85 || n == 0xA0 || n == 0x1680
    || 0x2000 <= n <= 0x200A || n == 0x2028 || n == 0x2029 || n == 0x202F || n == 0x205F || n == 0x3000
  }

  /** The twenty-nine characters Python strips. */
  lemma SpaceIs(c: char)
    ensures IsSpace(c) <==> c as int in SPACES
  {
  }

  const SPACES: set<int> :=
      {0x09, 0x0A, 0x0B, 0x0C, 0x0D, 0x1C, 0x1D, 0x1E, 0x1F, 0x20, 0x85, 0xA0, 0x1680,
       0x2000, 0x2001, 0x2002, 0x2003, 0x2004, 0x2005, 0x2006, 0x2007, 0x2008, 0x2009, 0x200A,
       0x2028, 0x2029, 0x202F, 0x205F, 0x3000}

  predicate IsQuote(c: char) {
    c == '"' || c == '\'' || c == '`'
  }

  /** A comment opener begins at `i`. */
  predicate Marker(line: string, i: nat) {
    i < |line| &&
    (line[i] == '#' || (line[i] == '/' && i + 1 < |line| && (line[i + 1] == '/' || line[i + 1] == '*')))
  }

  // --- the reference automaton ------------------------------------------------------------

  /** Outside a string, inside one, or inside one just after a backslash. */
  datatype Mode = Code | InString(quote: char) | Escaped(quote: char)

  function Read(m: Mode, c: char): Mode {
    match m
    case Code => if IsQuote(c) then InString(c) else Code
    case InString(q) => if c == '\\' then Escaped(q) else if c == q then Code else InString(q)
    case Escaped(q) => InString(q)
  }

  /** The automaton's state once `i` characters are read. */
  function ModeAt(line: string, i: nat): Mode
    requires i <= |line|
  {
    if i == 0 then Code else Read(ModeAt(line, i - 1), line[i - 1])
  }

  /** Nothing but whitespace precedes the star at `i`. */
  predicate LeadingStar(line: string, i: nat) {
    i < |line| && line[i] == '*' && forall j | 0 <= j < i :: IsSpace(line[j])
  }

  /** The code ends at `i`: a comment opener outside every string, or a leading star. */
  predicate Stops(line: string, i: nat) {
    i < |line| && ((ModeAt(line, i).Code? && Marker(line, i)) || LeadingStar(line, i))
  }

  /** `k` is where the code ends. */
  ghost predicate IsCut(line: string, k: nat) {
    && k <= |line|
    && (forall i | 0 <= i < k :: !Stops(line, i))
    && (k < |line| ==> Stops(line, k))
  }

  // --- the walk -----------------------------------------------------------------------------

  method CodeHalf(line: string) returns (half: string)
    ensures exists k: nat :: IsCut(line, k) && half == line[..k]
  {
    var n := |line|;
    var cut := n;
    var i := 0;
    var inString := false;
    var quote := ' ';
    while i < n
      invariant i <= n + 1
      invariant cut == n
      invariant i <= n ==> ModeAt(line, i) == if inString then InString(quote) else Code
      invariant forall j | 0 <= j < i && j < n :: !(ModeAt(line, j).Code? && Marker(line, j))
      decreases n - i
    {
      var ch := line[i];
      if inString {
        if ch == '\\' {
          if i + 2 <= n {
            assert ModeAt(line, i + 1) == Escaped(quote);
          }
          i := i + 2;
          continue;
        }
        if ch == quote {
          inString := false;
        }
      } else {
        if ch == '"' || ch == '\'' || ch == '`' {
          inString := true;
          quote := ch;
        } else if ch == '#' {
          cut := i;
          break;
        } else if ch == '/' && i + 1 < n && (line[i + 1] == '/' || line[i + 1] == '*') {
          cut := i;
          break;
        }
      }
      i := i + 1;
    }
    assert cut < n ==> ModeAt(line, cut).Code? && Marker(line, cut);
    ghost var first := cut;
    for idx := 0 to n
      invariant cut == first
      invariant forall j | 0 <= j < idx :: !LeadingStar(line, j)
    {
      if line[idx] == '*' && Blank(line[..idx]) {
        assert LeadingStar(line, idx);
        OneLeadingStar(line, idx);
        if idx < cut {
          cut := idx;
        }
        break;
      }
    }
    assert IsCut(line, cut);
    half := line[..cut];
  }

  /** `not s.strip()`. */
  predicate Blank(s: string) {
    forall j | 0 <= j < |s| :: IsSpace(s[j])
  }

  lemma OneLeadingStar(line: string, i: nat)
    requires LeadingStar(line, i)
    ensures forall j: nat | j != i :: !LeadingStar(line, j)
  {
  }

  // --- what the cut means ---------------------------------------------------------------------

  lemma CutIsUnique(line: string, k: nat, k': nat)
    requires IsCut(line, k) && IsCut(line, k')
    ensures k == k'
  {
  }

  lemma {:induction false} ModeOfPrefix(line: string, k: nat, i: nat)
    requires i <= k <= |line|
    ensures ModeAt(line[..k], i) == ModeAt(line, i)
  {
    if i > 0 {
      ModeOfPrefix(line, k, i - 1);
    }
  }

  /** Cutting twice cuts nothing more: the code half of a code half is itself. */
  lemma CutIsIdempotent(line: string, k: nat, k': nat)
    requires IsCut(line, k) && IsCut(line[..k], k')
    ensures line[..k][..k'] == line[..k]
  {
    var half := line[..k];
    if k' < k {
      ModeOfPrefix(line, k, k');
    }
    assert k' < k && Stops(half, k') ==> Stops(line, k');
  }
}
