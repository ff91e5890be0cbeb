/** The root-content slot of the single-view navigation service: one content control. */
module SingleViewNavigation {
  import opened Wrappers
  import opened Ui

  class SingleViewNavigationService {
    const mainView: ContentControl

    /** Installs `contentControl` as the platform's main view and keeps it as the content slot. */
    constructor (singleViewPlatform: SingleViewLifetime, contentControl: ContentControl)
      modifies singleViewPlatform
      ensures singleViewPlatform.mainView == contentControl && mainView == contentControl
    {
      singleViewPlatform.mainView := contentControl;
      mainView := contentControl;
    }

    /** The slot's raw content; the slot always exists. */
    function Content(): Option<object?>
      reads mainView
    {
      Some(mainView.content)
    }

    /** `GetCurrentView`: the slot's content when it is a view, null for any other content. */
    function GetCurrentView(): (v: View?)
      reads mainView
      ensures v != null <==> mainView.content is View
      ensures v != null ==> Content() == Some(v)
    {
      AsView(mainView.content)
    }

    /** `SetMainWindowContent`: overwrites the slot with `view`, which the next `GetCurrentView` returns. */
    method SetMainWindowContent(view: View)
      modifies mainView
      ensures Content() == Some(view) && GetCurrentView() == view
    {
      mainView.content := view;
    }
  }
}
