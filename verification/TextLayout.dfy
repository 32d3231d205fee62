/** The cursor of fb_printStr, src/shared/fbDraw.c lines 538-573: where each character is drawn, and
    when the tab loop, which resets its own counter on a line wrap, comes to an end. */
module TextLayout {
  import opened Arith
  import opened Framebuffer
  import opened Seqs

  datatype Glyph = Glyph(c: char, at: Pixel)

  /** What one call fixes: the line start, glyph width, advance, line height and screen width. */
  datatype Page = Page(start: int, w: int, step: int, line: int, xres: int) {

    predicate Fits(x: int) { x + w <= xres }

    /** The cursor after one drawn character. */
    function Advance(at: Pixel): Pixel {
      if Fits(at.x + step) then Pixel(at.x + step, at.y) else Pixel(start, at.y + line)
    }

    predicate Fits3(x: int) { Fits(x + step) && Fits(x + 2 * step) && Fits(x + 3 * step) }

    predicate Fits4(x: int) { Fits3(x) && Fits(x + 4 * step) }
  }

  /** The widths that the shorts of the source hold for a text height. */
  function PageFor(start: int, height: int, xres: int): Page {
    var t := Div(height, 3);
    var w := if Rem(t, 2) != 0 then t + 1 else t;
    Page(start, w, 2 * w, Div(3 * height, 2), xres)
  }

  /** What a text height fixes: an even glyph width of a third of it, a column of two glyph widths, and a
      line of one and a half heights, all rounded toward zero and the odd width up. */
  lemma PageMeans(start: int, height: int, xres: int)
    ensures var p := PageFor(start, height, xres);
            && p.start == start && p.xres == xres && p.w % 2 == 0 && p.step - p.w == p.w
            && (height >= 0 ==> 3 * (p.w - 1) <= height < 3 * (p.w + 1) && 2 * p.line <= 3 * height < 2 * p.line + 2)
            && (height < 0 ==> 3 * (p.w - 2) < height <= 3 * p.w && 2 * p.line - 2 < 3 * height <= 2 * p.line)
  {
  }

  /** The command guide: height 12, from column 10 on 1920 columns. */
  lemma GuidePage()
    ensures PageFor(10, 12, 1920) == Page(10, 4, 8, 18, 1920)
  {
  }

  // ---------- The tab loop ----------

  /** The loop state: counter and cursor. */
  datatype Tab = Tab(j: int, at: Pixel)

  function TabTurn(page: Page, s: Tab): Tab {
    if page.Fits(s.at.x + page.step) then Tab(s.j + 1, page.Advance(s.at)) else Tab(1, page.Advance(s.at))
  }

  function TabTurns(page: Page, s: Tab, k: nat): Tab {
    if k == 0 then s else TabTurn(page, TabTurns(page, s, k - 1))
  }

  predicate TabEnds(page: Page, x: int) {
    page.Fits4(x) || page.Fits3(page.start)
  }

  /** On the line where the tab began, or on a later one, with every advance on it a fit. */
  predicate TabReached(page: Page, x: int, s: Tab) {
    || (s.j == 0 && s.at.x == x)
    || (s.j == 1 && s.at.x == x + page.step && page.Fits(x + page.step))
    || (s.j == 2 && s.at.x == x + 2 * page.step && page.Fits(x + page.step) && page.Fits(x + 2 * page.step))
    || (s.j == 3 && s.at.x == x + 3 * page.step && page.Fits3(x))
    || (s.j == 1 && s.at.x == page.start)
    || (s.j == 2 && s.at.x == page.start + page.step && page.Fits(page.start + page.step))
    || (s.j == 3 && s.at.x == page.start + 2 * page.step
        && page.Fits(page.start + page.step) && page.Fits(page.start + 2 * page.step))
  }

  lemma {:induction false} TabStuck(page: Page, at: Pixel, k: nat)
    requires !TabEnds(page, at.x)
    ensures TabReached(page, at.x, TabTurns(page, Tab(0, at), k))
  {
    if k > 0 {
      TabStuck(page, at, k - 1);
    }
  }

  /** The cursor after a tab that ends: four columns on if they all fit, else column three of the
      next line. */
  function AfterTab(page: Page, at: Pixel): Pixel {
    if page.Fits4(at.x) then Pixel(at.x + 4 * page.step, at.y) else Pixel(page.start + 3 * page.step, at.y + page.line)
  }

  /** How many of the four advances fit before the first wrap, counting that one. */
  function TurnsToWrap(page: Page, x: int): nat {
    if !page.Fits(x + page.step) then 1 else if !page.Fits(x + 2 * page.step) then 2
    else if !page.Fits(x + 3 * page.step) then 3 else 4
  }

  function TurnsOfTab(page: Page, x: int): nat {
    if page.Fits4(x) then 4 else TurnsToWrap(page, x) + 3
  }

  lemma {:induction false} TabFits(page: Page, at: Pixel, k: nat)
    requires k <= 4 && (k >= 1 ==> page.Fits(at.x + page.step)) && (k >= 2 ==> page.Fits(at.x + 2 * page.step))
    requires (k >= 3 ==> page.Fits(at.x + 3 * page.step)) && (k >= 4 ==> page.Fits(at.x + 4 * page.step))
    ensures TabTurns(page, Tab(0, at), k) == Tab(k, Pixel(at.x + k * page.step, at.y))
  {
    if k > 0 {
      TabFits(page, at, k - 1);
      assert k * page.step == (k - 1) * page.step + page.step;
    }
  }

  lemma TurnFits(page: Page, y: int, k: nat)
    requires 1 <= k <= 3 && page.Fits3(page.start)
    ensures TabTurn(page, Tab(k, Pixel(page.start + (k - 1) * page.step, y)))
            == Tab(1 + k, Pixel(page.start + k * page.step, y))
  {
  }

  lemma {:induction false} TabWrapped(page: Page, at: Pixel, k: nat)
    requires k <= 3 && !page.Fits4(at.x) && page.Fits3(page.start)
    ensures TabTurns(page, Tab(0, at), TurnsToWrap(page, at.x) + k)
            == Tab(1 + k, Pixel(page.start + k * page.step, at.y + page.line))
  {
    if k > 0 {
      TabWrapped(page, at, k - 1);
      TurnFits(page, at.y + page.line, k);
    } else {
      TabFits(page, at, TurnsToWrap(page, at.x) - 1);
    }
  }

  /** The tab loop terminates exactly when four advances fit from the cursor or three fit from the
      line start; it then takes `TurnsOfTab` turns and leaves the cursor at `AfterTab`. */
  lemma TabTerminatesExactly(page: Page, at: Pixel)
    ensures (exists k: nat :: TabTurns(page, Tab(0, at), k).j >= 4) <==> TabEnds(page, at.x)
    ensures TabEnds(page, at.x) ==>
              TabTurns(page, Tab(0, at), TurnsOfTab(page, at.x)) == Tab(4, AfterTab(page, at))
  {
    if page.Fits4(at.x) {
      TabFits(page, at, 4);
    } else if page.Fits3(page.start) {
      TabWrapped(page, at, 3);
    } else {
      forall k: nat
        ensures TabTurns(page, Tab(0, at), k).j < 4
      {
        TabStuck(page, at, k);
      }
    }
  }

  /** The blanks a tab draws: one per turn. */
  function TabGlyphs(page: Page, at: Pixel, k: nat): (r: seq<Glyph>)
    ensures |r| == k
  {
    if k == 0 then [] else TabGlyphs(page, at, k - 1) + [Glyph(' ', TabTurns(page, Tab(0, at), k - 1).at)]
  }

  // ---------- Whole strings ----------

  function After(page: Page, c: char, at: Pixel): Pixel {
    if c == '\n' then Pixel(page.start, at.y + page.line)
    else if c == '\t' then AfterTab(page, at)
    else page.Advance(at)
  }

  function Drawn(page: Page, c: char, at: Pixel): seq<Glyph> {
    if c == '\n' then [] else if c == '\t' then TabGlyphs(page, at, TurnsOfTab(page, at.x)) else [Glyph(c, at)]
  }

  function Next(page: Page): (char, Pixel) -> Pixel { (c, at) => After(page, c, at) }

  function Out(page: Page): (char, Pixel) -> seq<Glyph> { (c, at) => Drawn(page, c, at) }

  function Cursor(page: Page, str: string, at: Pixel): Pixel {
    Fold(Next(page), str, at)
  }

  function Glyphs(page: Page, str: string, at: Pixel): seq<Glyph> {
    Emit(Next(page), Out(page), str, at)
  }

  /** Printing a text in two parts is printing it whole: the second part starts at the cursor the
      first one leaves. */
  lemma LayoutConcat(page: Page, s: string, t: string, at: Pixel)
    ensures Cursor(page, s + t, at) == Cursor(page, t, Cursor(page, s, at))
    ensures Glyphs(page, s + t, at) == Glyphs(page, s, at) + Glyphs(page, t, Cursor(page, s, at))
  {
    FoldConcat(Next(page), s, t, at);
    EmitConcat(Next(page), Out(page), s, t, at);
  }

  /** A newline draws nothing and starts the next line of the same page. */
  lemma NewLine(page: Page, t: string, at: Pixel)
    ensures Glyphs(page, ['\n'] + t, at) == Glyphs(page, t, Pixel(page.start, at.y + page.line))
  {
    LayoutConcat(page, ['\n'], t, at);
    assert Glyphs(page, ['\n'], at) == [];
  }

  /** Every tab of the string meets a cursor from which its loop ends. */
  predicate Terminates(page: Page, str: string, at: Pixel) {
    forall i :: 0 <= i < |str| && str[i] == '\t' ==> TabEnds(page, Cursor(page, str[..i], at).x)
  }

  /** Before the first tab, on a line without room for three advances. */
  lemma {:induction false} BeforeTab(page: Page, str: string, at: Pixel)
    requires at.x == page.start && '\t' !in str && !page.Fits3(page.start)
    ensures if page.step >= 0 then Cursor(page, str, at).x >= page.start else Cursor(page, str, at).x == page.start
  {
    if str != "" {
      var n := |str| - 1;
      assert str[n] in str;
      BeforeTab(page, str[..n], at);
    }
  }

  function FirstTab(str: string): (k: nat)
    ensures k <= |str| && '\t' !in str[..k] && (k < |str| ==> str[k] == '\t')
  {
    if str == "" || str[0] == '\t' then 0 else 1 + FirstTab(str[1..])
  }

  /** Printing a text from the line start comes to an end exactly if it has no tab, or three advances
      fit on a line. */
  lemma TerminatesExactly(page: Page, str: string, at: Pixel)
    requires at.x == page.start
    ensures Terminates(page, str, at) <==> '\t' !in str || page.Fits3(page.start)
  {
    var k := FirstTab(str);
    if k < |str| && !page.Fits3(page.start) {
      BeforeTab(page, str[..k], at);
      assert str[k] == '\t' && !TabEnds(page, Cursor(page, str[..k], at).x);
    }
  }

  /** With that room, a text of any start terminates. */
  lemma RoomTerminates(page: Page, str: string, at: Pixel)
    requires page.Fits3(page.start)
    ensures Terminates(page, str, at)
  {
  }

  /** For a positive height, three advances fit if the third does. */
  lemma RoomForTabs(page: Page)
    requires page.step >= 0
    ensures page.Fits3(page.start) <==> page.Fits(page.start + 3 * page.step)
  {
  }

  /** Nothing is drawn past the right edge if the first column fits and the text starts there. */
  lemma {:induction false} StaysOnPage(page: Page, str: string, at: Pixel)
    requires page.Fits(page.start) && at.x == page.start && Terminates(page, str, at)
    ensures page.Fits(Cursor(page, str, at).x)
    ensures forall g :: g in Glyphs(page, str, at) ==> page.Fits(g.at.x)
  {
    if str != "" {
      var n := |str| - 1;
      assert forall i :: 0 <= i < n ==> str[..n][..i] == str[..i];
      StaysOnPage(page, str[..n], at);
      var cur := Cursor(page, str[..n], at);
      if str[n] == '\t' {
        TabStaysOnPage(page, cur, TurnsOfTab(page, cur.x));
      }
    }
  }

  lemma {:induction false} TabStaysOnPage(page: Page, at: Pixel, k: nat)
    requires page.Fits(page.start) && page.Fits(at.x)
    ensures page.Fits(TabTurns(page, Tab(0, at), k).at.x)
    ensures forall g :: g in TabGlyphs(page, at, k) ==> page.Fits(g.at.x)
  {
    if k > 0 {
      TabStaysOnPage(page, at, k - 1);
    }
  }

  // ---------- The grid of plain text ----------

  /** How many characters go on a line; at least one is always drawn. */
  function Columns(page: Page): int
    requires page.step > 0
  {
    Max(1, (page.xres - page.w - page.start) / page.step + 1)
  }

  function Place(page: Page, at: Pixel, k: nat): Pixel
    requires page.step > 0
  {
    Pixel(page.start + k % Columns(page) * page.step, at.y + k / Columns(page) * page.line)
  }

  lemma PlaceNext(page: Page, at: Pixel, k: nat)
    requires page.step > 0
    ensures page.Advance(Place(page, at, k)) == Place(page, at, k + 1)
  {
    var m := Columns(page);
    var c, r := k % m, k / m;
    assert (c + 1) * page.step == c * page.step + page.step;
    ColumnFits(page, c + 1);
    if c + 1 == m {
      assert k + 1 == (r + 1) * m + 0;
      DivModUnique(k + 1, m, r + 1, 0);
      assert (r + 1) * page.line == r * page.line + page.line;
    } else {
      DivModUnique(k + 1, m, r, c + 1);
    }
  }

  lemma ColumnFits(page: Page, c: nat)
    requires page.step > 0 && c >= 1
    ensures page.Fits(page.start + c * page.step) <==> c < Columns(page)
  {
    var room := page.xres - page.w - page.start;
    var q := room / page.step;
    assert room == q * page.step + room % page.step;
    if c <= q {
      MulMono(c, q, page.step);
    } else {
      MulStrict(q, c, page.step);
    }
  }

  /** Plain text fills a grid: character k stands in column k mod m and row k div m, where m is the
      number of columns. */
  lemma {:induction false} PlainTextGrid(page: Page, str: string, at: Pixel)
    requires page.step > 0 && at.x == page.start && '\n' !in str && '\t' !in str
    ensures |Glyphs(page, str, at)| == |str|
    ensures forall k :: 0 <= k < |str| ==> Glyphs(page, str, at)[k] == Glyph(str[k], Place(page, at, k))
    ensures Cursor(page, str, at) == Place(page, at, |str|)
  {
    if str != "" {
      var n := |str| - 1;
      assert str[n] in str;
      PlainTextGrid(page, str[..n], at);
      PlaceNext(page, at, n);
    } else {
      DivModUnique(0, Columns(page), 0, 0);
    }
  }

  /** The last column fits, and a further one would not; only a first column is drawn regardless. */
  lemma ColumnsExactly(page: Page)
    requires page.step > 0
    ensures var m := Columns(page);
            && m >= 1 && page.start + m * page.step + page.w > page.xres
            && (m > 1 ==> page.start + (m - 1) * page.step + page.w <= page.xres)
  {
    var m := Columns(page);
    ColumnFits(page, m);
    if m > 1 {
      ColumnFits(page, m - 1);
    }
  }

  /** The command guide in pixels: plain text of height 12 from column 10 of a screen of 1920 goes eight
      pixels on with each character, and eighteen down after 239 of them. */
  lemma GuideText(str: string, y: int)
    requires '\n' !in str && '\t' !in str
    ensures var glyphs := Glyphs(PageFor(10, 12, 1920), str, Pixel(10, y));
            |glyphs| == |str| && forall k :: 0 <= k < |str| ==>
              glyphs[k] == Glyph(str[k], Pixel(10 + 8 * (k % 239), y + 18 * (k / 239)))
  {
    GuidePage();
    PlainTextGrid(Page(10, 4, 8, 18, 1920), str, Pixel(10, y));
  }

  /** A tab, in pixels: four columns on where they fit; else the rest of the line, of `r` columns and the
      one that wraps, and three columns of the next. */
  lemma TabMeans(page: Page, at: Pixel)
    requires page.step >= 0 && TabEnds(page, at.x)
    ensures var room := page.xres - page.w;
            var r := if at.x + 3 * page.step <= room then 3 else if at.x + 2 * page.step <= room then 2
                     else if at.x + page.step <= room then 1 else 0;
            if at.x + 4 * page.step <= room then
              Cursor(page, "\t", at) == Pixel(at.x + 4 * page.step, at.y) && |Glyphs(page, "\t", at)| == 4
            else
              && Cursor(page, "\t", at) == Pixel(page.start + 3 * page.step, at.y + page.line)
              && |Glyphs(page, "\t", at)| == r + 4
  {
    assert "\t"[..0] == "";
    assert Cursor(page, "\t", at) == AfterTab(page, at);
    assert Glyphs(page, "\t", at) == [] + TabGlyphs(page, at, TurnsOfTab(page, at.x));
  }

  lemma {:induction false} TabBlanks(page: Page, at: Pixel, k: nat)
    ensures forall i :: 0 <= i < k ==> TabGlyphs(page, at, k)[i] == Glyph(' ', TabTurns(page, Tab(0, at), i).at)
  {
    if k > 0 {
      TabBlanks(page, at, k - 1);
    }
  }

  /** Where the cursor is after `i` turns: on its own line, or after the wrap in the next. */
  lemma TurnPlace(page: Page, at: Pixel, i: nat)
    requires TabEnds(page, at.x) && i < TurnsOfTab(page, at.x)
    ensures var w, p := TurnsToWrap(page, at.x), TabTurns(page, Tab(0, at), i).at;
            p == if page.Fits4(at.x) || i < w then Pixel(at.x + i * page.step, at.y)
                 else Pixel(page.start + (i - w) * page.step, at.y + page.line)
  {
    if page.Fits4(at.x) || i < TurnsToWrap(page, at.x) {
      TabFits(page, at, i);
    } else {
      TabWrapped(page, at, i - TurnsToWrap(page, at.x));
    }
  }

  /** Where the blanks of a tab stand: a run on its own line and, if it wraps, one from the start of the
      next. */
  lemma TabPlaces(page: Page, at: Pixel, i: nat)
    requires TabEnds(page, at.x) && i < TurnsOfTab(page, at.x)
    ensures var w, g := TurnsToWrap(page, at.x), TabGlyphs(page, at, TurnsOfTab(page, at.x))[i];
            g == Glyph(' ', if page.Fits4(at.x) || i < w then Pixel(at.x + i * page.step, at.y)
                            else Pixel(page.start + (i - w) * page.step, at.y + page.line))
  {
    TabBlanks(page, at, TurnsOfTab(page, at.x));
    TurnPlace(page, at, i);
  }

  // ---------- The method ----------

  /** fb_printStr with the drawn characters recorded, on every string and page on which it terminates
      (TerminatesExactly). */
  method PrintStr(str: string, cursor: Pixel, height: int, xres: int) returns (glyphs: seq<Glyph>, end: Pixel)
    requires '\t' !in str || PageFor(cursor.x, height, xres).Fits3(cursor.x)
    ensures var page := PageFor(cursor.x, height, xres);
            glyphs == Glyphs(page, str, cursor) && end == Cursor(page, str, cursor)
  {
    var page := PageFor(cursor.x, height, xres);
    TerminatesExactly(page, str, cursor);
    end := cursor;
    glyphs := [];
    var i := 0;
    while i < |str|
      invariant 0 <= i <= |str|
      invariant glyphs == Glyphs(page, str[..i], cursor) && end == Cursor(page, str[..i], cursor)
    {
      assert str[..i + 1][..i] == str[..i];
      if str[i] == '\n' {
        end := Pixel(page.start, end.y + page.line);
      } else if str[i] == '\t' {
        var blanks;
        blanks, end := PrintTab(page, end);
        glyphs := glyphs + blanks;
      } else {
        glyphs := glyphs + [Glyph(str[i], end)];
        end := Step(page, end);
      }
      i := i + 1;
    }
    assert str[..i] == str;
  }

  /** The advance after a drawn character. */
  method Step(page: Page, at: Pixel) returns (next: Pixel)
    ensures next == page.Advance(at)
  {
    next := Pixel(at.x + page.step, at.y);
    if next.x + page.w > page.xres {
      next := Pixel(page.start, next.y + page.line);
    }
  }

  /** The tab loop; `k` counts its turns. */
  method PrintTab(page: Page, at: Pixel) returns (glyphs: seq<Glyph>, end: Pixel)
    requires TabEnds(page, at.x)
    ensures glyphs == TabGlyphs(page, at, TurnsOfTab(page, at.x)) && end == AfterTab(page, at)
  {
    TabTerminatesExactly(page, at);
    ghost var turns, k := TurnsOfTab(page, at.x), 0;
    end := at;
    glyphs := [];
    var j := 0;
    while j < 4
      invariant 0 <= k <= turns && Tab(j, end) == TabTurns(page, Tab(0, at), k) && glyphs == TabGlyphs(page, at, k)
      decreases turns - k
    {
      assert k < turns;
      glyphs := glyphs + [Glyph(' ', end)];
      end := Pixel(end.x + page.step, end.y);
      if end.x + page.w > page.xres {
        end := Pixel(page.start, end.y + page.line);
        j := 0;
      }
      j := j + 1;
      k := k + 1;
    }
    FirstEnd(page, at, k);
  }

  /** The counter stays below four until the last turn. */
  lemma FirstEnd(page: Page, at: Pixel, k: nat)
    requires TabEnds(page, at.x) && k <= TurnsOfTab(page, at.x) && TabTurns(page, Tab(0, at), k).j >= 4
    ensures k == TurnsOfTab(page, at.x)
  {
    if page.Fits4(at.x) {
      TabFits(page, at, k);
    } else if k < TurnsToWrap(page, at.x) {
      TabFits(page, at, k);
    } else {
      TabWrapped(page, at, k - TurnsToWrap(page, at.x));
    }
  }
}
