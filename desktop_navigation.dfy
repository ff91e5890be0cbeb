/** The root-content slot of the desktop navigation service: the main window's content. */
module DesktopNavigation {
  import opened Wrappers
  import opened Runtime
  import opened Ui

  class NavigationService {
    const desktop: DesktopLifetime?

    constructor (desktop: DesktopLifetime?)
      ensures this.desktop == desktop
    {
      this.desktop := desktop;
    }

    /** `_desktop?.MainWindow`. */
    function MainWindow(): Window?
      reads desktop
    {
      if desktop == null then null else desktop.mainWindow
    }

    /** What reading the root content reads. */
    ghost function Reads(): set<object>
      reads desktop
    {
      (if desktop == null then {} else {desktop}) + Slot()
    }

    /** What writing the root content writes: the main window, when there is one. */
    ghost function Slot(): set<object>
      reads desktop
    {
      if MainWindow() == null then {} else {MainWindow()}
    }

    /** The main window's raw content, or None when there is no main window. */
    function Content(): Option<object?>
      reads Reads()
    {
      if MainWindow() == null then None else Some(MainWindow().content)
    }

    /**
     * `GetCurrentView`: null without a desktop or a main window; otherwise the main window's
     * content when that content is a view, and null for any other content.
     */
    function GetCurrentView(): (v: View?)
      reads Reads()
      ensures MainWindow() == null ==> v == null
      ensures MainWindow() != null ==> (v != null <==> MainWindow().content is View)
      ensures v != null ==> Content() == Some(v)
    {
      var window := MainWindow();
      if window == null then null else AsView(window.content)
    }

    /**
     * `SetMainWindowContent`: the main window now displays `view`, which the next
     * `GetCurrentView` returns. There is no null check in the source, so without a desktop or a
     * main window it raises NullReferenceException and changes nothing.
     */
    method SetMainWindowContent(view: View) returns (r: Outcome<Exception>)
      modifies Slot()
      ensures old(MainWindow()) == null ==> r == Fail(NullReference) && Content() == old(Content())
      ensures old(MainWindow()) != null ==> r == Pass && Content() == Some(view) && GetCurrentView() == view
      ensures MainWindow() == old(MainWindow())
    {
      var window := MainWindow();
      if window == null {
        return Fail(NullReference);
      }
      window.content := view;
      r := Pass;
    }
  }
}
