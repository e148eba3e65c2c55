/**
 The collapsible navigation menu.

 `setExpanded(open)` sets the bar's `open` class and mirrors it into the
 toggle's `aria-expanded` attribute. A click on the toggle flips the class;
 Escape, a click outside the bar and a click on a menu link all close it.
 A click runs the listener on its target first and then bubbles to the
 document-level listener.
 */
module Menu {

  /** The bar's `open` class and the toggle's `aria-expanded` attribute. */
  datatype Menu = Menu(open: bool, ariaExpanded: string)

  /** Which elements the page has, and where the toggle and the link panel
      sit relative to the bar (the markup decides this). */
  datatype Page = Page(hero: bool, mark: bool, toggle: bool, bar: bool, panel: bool,
                       toggleInBar: bool, panelInBar: bool)

  /** The listeners are installed only if the hero, the mark, the toggle and
      the bar all exist: a missing hero or mark stops the handler early. */
  predicate Wired(pg: Page)
  {
    pg.hero && pg.mark && pg.toggle && pg.bar
  }

  /** `String(open)`. */
  function BoolText(b: bool): string
  {
    if b then "true" else "false"
  }

  /** The attribute says what the class says. */
  predicate Mirrors(m: Menu)
  {
    m.ariaExpanded == BoolText(m.open)
  }

  function SetExpanded(open: bool): (m: Menu)
    ensures m.open == open && Mirrors(m)
  {
    Menu(open, BoolText(open))
  }

  datatype Target = OnToggle | OnLink | Elsewhere(insideBar: bool)

  datatype MenuEvent = Click(target: Target) | KeyDown(key: string)

  /** Whether the clicked element lies inside the bar. */
  function InsideBar(pg: Page, t: Target): bool
  {
    match t
    case OnToggle => pg.toggleInBar
    case OnLink => pg.panelInBar
    case Elsewhere(inside) => inside
  }

  /** The listener on the click's target, if any. */
  function TargetListener(pg: Page, m: Menu, t: Target): Menu
  {
    match t
    case OnToggle => SetExpanded(!m.open)
    case OnLink => if pg.panel then SetExpanded(false) else m
    case Elsewhere(_) => m
  }

  /** The document-level click listener: close unless inside the bar. */
  function DocumentClick(pg: Page, m: Menu, t: Target): Menu
  {
    if !InsideBar(pg, t) then SetExpanded(false) else m
  }

  function Handle(pg: Page, m: Menu, e: MenuEvent): (m': Menu)
    ensures !Wired(pg) ==> m' == m
    ensures Wired(pg) && Mirrors(m) ==> Mirrors(m')
    ensures Wired(pg) && e == KeyDown("Escape") ==> !m'.open
  {
    if !Wired(pg) then m
    else
      match e
      case Click(t) => DocumentClick(pg, TargetListener(pg, m, t), t)
      case KeyDown(key) => if key == "Escape" then SetExpanded(false) else m
  }

  /** With the toggle inside the bar, clicking it flips the menu. */
  lemma ToggleFlips(pg: Page, m: Menu)
    requires Wired(pg) && pg.toggleInBar
    ensures Handle(pg, m, Click(OnToggle)).open == !m.open
    ensures Mirrors(Handle(pg, m, Click(OnToggle)))
  {
  }

  /** With the toggle outside the bar the document listener undoes the
      toggle on the same click, so the menu never stays open. */
  lemma ToggleOutsideBarCloses(pg: Page, m: Menu)
    requires Wired(pg) && !pg.toggleInBar
    ensures !Handle(pg, m, Click(OnToggle)).open
  {
  }

  /** The events that close the menu. */
  predicate Closing(pg: Page, e: MenuEvent)
  {
    || e == KeyDown("Escape")
    || (e.Click? && e.target.Elsewhere? && !e.target.insideBar)
    || (e == Click(OnLink) && (pg.panel || !pg.panelInBar))
  }

  /** Escape, an outside click and a link click leave the menu closed with
      the attribute saying so, and repeating them changes nothing. */
  lemma ClosingCloses(pg: Page, m: Menu, e: MenuEvent)
    requires Wired(pg) && Closing(pg, e)
    ensures Handle(pg, m, e) == SetExpanded(false)
    ensures Handle(pg, Handle(pg, m, e), e) == Handle(pg, m, e)
  {
  }

  /** Any other key and a click inside the bar that is not on the toggle or
      a link leave the menu as it was. */
  lemma InertEvents(pg: Page, m: Menu, e: MenuEvent)
    requires (e.KeyDown? && e.key != "Escape") || e == Click(Elsewhere(true))
    ensures Handle(pg, m, e) == m
  {
  }

  function HandleAll(pg: Page, m: Menu, es: seq<MenuEvent>): Menu
    decreases |es|
  {
    if es == [] then m else HandleAll(pg, Handle(pg, m, es[0]), es[1..])
  }

  /** Without the listeners no sequence of events changes anything. */
  lemma {:induction false} UnwiredInert(pg: Page, m: Menu, es: seq<MenuEvent>)
    requires !Wired(pg)
    ensures HandleAll(pg, m, es) == m
    decreases |es|
  {
    if es != [] {
      UnwiredInert(pg, Handle(pg, m, es[0]), es[1..]);
    }
  }

  /** Once the attribute mirrors the class it does so after any sequence of
      events; a first toggle, Escape or outside click establishes it. */
  lemma {:induction false} MirrorsForever(pg: Page, m: Menu, es: seq<MenuEvent>)
    requires Wired(pg)
    requires Mirrors(m) || (es != [] && (es[0] == Click(OnToggle) || Closing(pg, es[0])))
    ensures Mirrors(HandleAll(pg, m, es))
    decreases |es|
  {
    if es != [] {
      MirrorsForever(pg, Handle(pg, m, es[0]), es[1..]);
    }
  }
}
