/** The layout arithmetic of create_timestamp_overlay in video_vintage.py:
    where the timestamp and the message are drawn, whether the message is
    drawn at all, and the twelve halo draws around each text. Text measuring
    (PIL's textbbox) gives the boxes, and the integer paddings computed from
    the frame size by float multiplication are inputs. */
module Overlay {

  // ---------------------------------------------------------------------------
  // str.strip()
  // ---------------------------------------------------------------------------

  /** The code points for which Python's str.isspace() holds, which str.strip()
      with no argument removes. */
  predicate IsSpace(c: char)
  {
    ('\U{0009}' <= c <= '\U{000D}') || ('\U{001C}' <= c <= '\U{0020}') ||
    c == '\U{0085}' || c == '\U{00A0}' || c == '\U{1680}' ||
    ('\U{2000}' <= c <= '\U{200A}') ||
    c == '\U{2028}' || c == '\U{2029}' || c == '\U{202F}' || c == '\U{205F}' || c == '\U{3000}'
  }

  /** Characters at the edges of the set: the zero-width space, the Mongolian
      vowel separator and the byte-order mark are not whitespace to Python,
      nor is any code point just outside the ranges. */
  lemma SpaceBoundary()
    ensures IsSpace(' ') && IsSpace('\t') && IsSpace('\U{3000}')
    ensures !IsSpace('\U{0008}') && !IsSpace('\U{000E}') && !IsSpace('\U{001B}') && !IsSpace('!')
    ensures !IsSpace('\U{200B}') && !IsSpace('\U{180E}') && !IsSpace('\U{FEFF}')
  {
  }

  predicate AllSpace(s: string)
  {
    forall k :: 0 <= k < |s| ==> IsSpace(s[k])
  }

  /** The length of the leading run of whitespace. */
  function LeadingSpace(s: string): (i: nat)
    ensures i <= |s|
    ensures forall k :: 0 <= k < i ==> IsSpace(s[k])
    ensures i < |s| ==> !IsSpace(s[i])
  {
    if |s| == 0 || !IsSpace(s[0]) then 0
    else
      var i := 1 + LeadingSpace(s[1..]);
      assert forall k :: 1 <= k < i ==> s[k] == s[1..][k - 1];
      i
  }

  /** Where the trailing run of whitespace starts. */
  function TrailingSpace(s: string): (j: nat)
    ensures j <= |s|
    ensures forall k :: j <= k < |s| ==> IsSpace(s[k])
    ensures j > 0 ==> !IsSpace(s[j - 1])
  {
    if |s| == 0 || !IsSpace(s[|s| - 1]) then |s|
    else
      var j := TrailingSpace(s[..|s| - 1]);
      assert forall k :: j <= k < |s| - 1 ==> s[k] == s[..|s| - 1][k];
      j
  }

  /** message_text.strip(): never longer than the message, and never starting
      or ending with whitespace. */
  function Strip(s: string): (r: string)
    ensures |r| <= |s|
    ensures r != [] ==> !IsSpace(r[0]) && !IsSpace(r[|r| - 1])
  {
    var i := LeadingSpace(s);
    if i == |s| then [] else
      var j := TrailingSpace(s);
      assert !IsSpace(s[i]) && i < j;
      s[i..j]
  }

  /** Strip cuts whitespace, and only whitespace, off both ends: what remains
      is a slice of s that neither starts nor ends with whitespace. */
  lemma StripIsTrim(s: string)
    ensures exists i, j :: (0 <= i <= j <= |s| && Strip(s) == s[i..j] &&
      AllSpace(s[..i]) && AllSpace(s[j..]))
    ensures Strip(s) != [] ==> !IsSpace(Strip(s)[0]) && !IsSpace(Strip(s)[|Strip(s)| - 1])
  {
    var i := LeadingSpace(s);
    if i == |s| {
      assert Strip(s) == s[i..i] && AllSpace(s[..i]) && AllSpace(s[i..]);
    } else {
      var j := TrailingSpace(s);
      assert !IsSpace(s[i]);
      assert i < j;
      assert Strip(s) == s[i..j];
      assert AllSpace(s[..i]) by {
        forall k | 0 <= k < i ensures IsSpace(s[..i][k]) { assert s[..i][k] == s[k]; }
      }
      assert AllSpace(s[j..]) by {
        forall k | 0 <= k < |s| - j ensures IsSpace(s[j..][k]) { assert s[j..][k] == s[j + k]; }
      }
    }
  }

  /** The message is dropped exactly when it is empty or all whitespace. */
  lemma StripEmptyIffBlank(s: string)
    ensures Strip(s) == [] <==> AllSpace(s)
  {
    var i := LeadingSpace(s);
    if i < |s| {
      var j := TrailingSpace(s);
      assert !IsSpace(s[i]);
      assert i < j;
      assert |s[i..j]| > 0;
    }
  }

  /** Stripping twice strips nothing more. */
  lemma StripIdempotent(s: string)
    ensures Strip(Strip(s)) == Strip(s)
  {
    var t := Strip(s);
    StripIsTrim(s);
    if t != [] {
      assert LeadingSpace(t) == 0;
      assert TrailingSpace(t) == |t|;
      assert t[0..|t|] == t;
    }
  }

  // ---------------------------------------------------------------------------
  // Layout
  // ---------------------------------------------------------------------------

  /** A text box from textbbox: (left, top, right, bottom). */
  datatype Box = Box(left: int, top: int, right: int, bottom: int)

  /** One text draw: the string at the anchor (x, y). */
  datatype Placed = Placed(text: string, x: int, y: int)

  /** The four halo draws at distance i around a text, in drawing order. */
  function Ring(p: Placed, i: int): (r: seq<Placed>)
    ensures |r| == 4
  {
    [Placed(p.text, p.x + i, p.y + i), Placed(p.text, p.x - i, p.y - i),
     Placed(p.text, p.x, p.y + i), Placed(p.text, p.x, p.y - i)]
  }

  /** The rings for distances 3 down to i + 1. */
  function RingsAbove(p: Placed, i: int): (r: seq<Placed>)
    requires 0 <= i <= 3
    ensures |r| == 4 * (3 - i)
    decreases 3 - i
  {
    if i == 3 then [] else RingsAbove(p, i + 1) + Ring(p, i + 1)
  }

  /** The twelve halo draws around one text: `for i in range(3, 0, -1)`. */
  function Halo(p: Placed): (r: seq<Placed>)
    ensures |r| == 12
  {
    RingsAbove(p, 0)
  }

  /** The halo draws of every text, text by text. */
  function Glow(ts: seq<Placed>): (g: seq<Placed>)
    ensures |g| == 12 * |ts|
  {
    if |ts| == 0 then [] else Glow(ts[..|ts| - 1]) + Halo(ts[|ts| - 1])
  }

  /** The k-th halo draw around a text: distance 3 - k / 4, and one of the four
      directions (+i, +i), (-i, -i), (0, +i), (0, -i). */
  lemma HaloAt(p: Placed, k: int)
    requires 0 <= k < 12
    ensures var i, q := 3 - k / 4, Halo(p)[k];
      q.text == p.text &&
      (k % 4 == 0 ==> q.x == p.x + i && q.y == p.y + i) &&
      (k % 4 == 1 ==> q.x == p.x - i && q.y == p.y - i) &&
      (k % 4 == 2 ==> q.x == p.x && q.y == p.y + i) &&
      (k % 4 == 3 ==> q.x == p.x && q.y == p.y - i)
  {
    assert Halo(p) == Ring(p, 3) + Ring(p, 2) + Ring(p, 1);
  }

  /** The draw opposite q through the text p. */
  function Mirror(p: Placed, q: Placed): Placed
  {
    Placed(q.text, 2 * p.x - q.x, 2 * p.y - q.y)
  }

  /** One ring: four draws at distance i, none on the text, closed under
      mirroring through the text. */
  lemma RingShape(p: Placed, i: int)
    requires 1 <= i <= 3
    ensures forall q :: q in Ring(p, i) ==>
      q.text == p.text && -3 <= q.x - p.x <= 3 && -3 <= q.y - p.y <= 3 && (q.x != p.x || q.y != p.y)
    ensures forall q :: q in Ring(p, i) ==> Mirror(p, q) in Ring(p, i)
  {
    var r := Ring(p, i);
    forall q | q in r
      ensures Mirror(p, q) in r
    {
      if q == r[0] { assert Mirror(p, q) == r[1]; }
      else if q == r[1] { assert Mirror(p, q) == r[0]; }
      else if q == r[2] { assert Mirror(p, q) == r[3]; }
      else { assert Mirror(p, q) == r[2]; }
    }
  }

  /** Every halo draw is within 3 pixels of the text in each direction and
      none sits on the text itself; the mirror image of a halo draw through
      the text is a halo draw too, so the glow is point-symmetric. */
  lemma HaloShape(p: Placed)
    ensures |Halo(p)| == 12
    ensures forall q :: q in Halo(p) ==>
      q.text == p.text && -3 <= q.x - p.x <= 3 && -3 <= q.y - p.y <= 3 && (q.x != p.x || q.y != p.y)
    ensures forall q :: q in Halo(p) ==> Mirror(p, q) in Halo(p)
  {
    var r3, r2, r1 := Ring(p, 3), Ring(p, 2), Ring(p, 1);
    assert Halo(p) == r3 + r2 + r1;
    RingShape(p, 3);
    RingShape(p, 2);
    RingShape(p, 1);
  }

  /** Glow holds the halo of text t at positions 12t .. 12t + 11. */
  lemma {:induction false} GlowAt(ts: seq<Placed>, t: int, k: int)
    requires 0 <= t < |ts| && 0 <= k < 12
    ensures Glow(ts)[12 * t + k] == Halo(ts[t])[k]
    decreases |ts|
  {
    var init := ts[..|ts| - 1];
    if t < |ts| - 1 {
      GlowAt(init, t, k);
      assert init[t] == ts[t];
    }
  }

  /** Where the date goes: padding_x from the left, its height plus padding_y
      above the bottom edge. */
  function DatePos(height: int, paddingX: int, paddingY: int, date: string, box: Box): (p: Placed)
    ensures p.text == date && p.x == paddingX
    ensures p.y + (box.bottom - box.top) + paddingY == height
  {
    Placed(date, paddingX, height - (box.bottom - box.top) - paddingY)
  }

  /** Where the message goes: its width plus padding_x from the right edge,
      padding_y from the top. */
  function MessagePos(width: int, paddingX: int, paddingY: int, msg: string, box: Box): (p: Placed)
    ensures p.text == msg && p.y == paddingY
    ensures p.x + (box.right - box.left) + paddingX == width
  {
    Placed(msg, width - paddingX - (box.right - box.left), paddingY)
  }

  /** The inner loop `for i in range(3, 0, -1)` around one text: rings at
      distance 3, 2, 1, each in the order (+i, +i), (-i, -i), (0, +i), (0, -i). */
  method HaloDraws(p: Placed) returns (h: seq<Placed>)
    ensures h == Halo(p)
  {
    h := [];
    var i := 3;
    while i > 0
      invariant 0 <= i <= 3
      invariant h == RingsAbove(p, i)
    {
      h := h + [Placed(p.text, p.x + i, p.y + i), Placed(p.text, p.x - i, p.y - i),
                Placed(p.text, p.x, p.y + i), Placed(p.text, p.x, p.y - i)];
      i := i - 1;
    }
  }

  /** The outer loop over the texts: each text's halo, text by text. */
  method GlowDraws(texts: seq<Placed>) returns (glow: seq<Placed>)
    ensures glow == Glow(texts)
  {
    glow := [];
    var t := 0;
    while t < |texts|
      invariant 0 <= t <= |texts|
      invariant glow == Glow(texts[..t])
    {
      var h := HaloDraws(texts[t]);
      glow := glow + h;
      assert texts[..t + 1][..t] == texts[..t];
      t := t + 1;
    }
    assert texts[..t] == texts;
  }

  /** The draw lists of create_timestamp_overlay: `texts` for the core colour
      and `glow` for the halo layer. `msgBox` is the box of the stripped
      message, measured only when it is drawn. */
  method CreateTimestampOverlay(width: int, height: int, paddingX: int, paddingY: int,
                                timestamp: string, message: string, dateBox: Box, msgBox: Box)
    returns (texts: seq<Placed>, glow: seq<Placed>)
    ensures |texts| == (if AllSpace(message) then 1 else 2)
    ensures texts[0] == DatePos(height, paddingX, paddingY, timestamp, dateBox)
    ensures texts[0].y + (dateBox.bottom - dateBox.top) + paddingY == height
    ensures |texts| == 2 ==> texts[1] == MessagePos(width, paddingX, paddingY, Strip(message), msgBox)
    ensures |texts| == 2 ==> texts[1].x + (msgBox.right - msgBox.left) + paddingX == width
    ensures |glow| == 12 * |texts|
    ensures forall t, k :: 0 <= t < |texts| && 0 <= k < 12 ==> glow[12 * t + k] == Halo(texts[t])[k]
  {
    texts := [DatePos(height, paddingX, paddingY, timestamp, dateBox)];
    var clean := Strip(message);
    StripEmptyIffBlank(message);
    if clean != [] {
      texts := texts + [MessagePos(width, paddingX, paddingY, clean, msgBox)];
    }
    glow := GlowDraws(texts);
    forall t, k | 0 <= t < |texts| && 0 <= k < 12
      ensures glow[12 * t + k] == Halo(texts[t])[k]
    {
      GlowAt(texts, t, k);
    }
  }
}
