/**
 * The UI toolkit objects the navigation core touches, reduced to the state it reads and writes:
 * views bound to a view-model, content slots (a window's or a content control's), the
 * application lifetimes that own them, overlay layers and host panels.
 */
module Ui {
  import opened Runtime

  /**
   * A view (`IBaseView`): a visual unit of some view type, which may or may not be a `Control`,
   * holding a reference to its view-model.
   */
  class View {
    const viewType: TypeName
    const isControl: bool
    var viewModel: object?

    constructor (viewType: TypeName, isControl: bool)
      ensures this.viewType == viewType && this.isControl == isControl && viewModel == null
    {
      this.viewType := viewType;
      this.isControl := isControl;
      viewModel := null;
    }
  }

  /** `content as IBaseView`: the content when it is a view, null for anything else. */
  function AsView(content: object?): (v: View?)
    ensures v != null <==> content is View
    ensures v != null ==> v == content
  {
    if content is View then content as View else null
  }

  /** A desktop window; `content` is whatever object it displays. */
  class Window {
    var content: object?

    constructor (content: object?)
      ensures this.content == content
    {
      this.content := content;
    }
  }

  /** `IClassicDesktopStyleApplicationLifetime`: a desktop application, with or without a main window. */
  class DesktopLifetime {
    var mainWindow: Window?

    constructor (mainWindow: Window?)
      ensures this.mainWindow == mainWindow
    {
      this.mainWindow := mainWindow;
    }
  }

  /** A `ContentControl`: a single content slot. */
  class ContentControl {
    var content: object?

    constructor (content: object?)
      ensures this.content == content
    {
      this.content := content;
    }
  }

  /** `ISingleViewApplicationLifetime`: a single-view platform whose main view can be replaced. */
  class SingleViewLifetime {
    var mainView: object?

    constructor ()
      ensures mainView == null
    {
      mainView := null;
    }
  }

  /** The overlay layer of a top level: the controls shown above its content, in z-order. */
  class OverlayLayer {
    var children: seq<object>

    constructor ()
      ensures children == []
    {
      children := [];
    }
  }

  /** A `TopLevel`; `OverlayLayer.GetOverlayLayer` on it yields `overlayLayer`. */
  class TopLevel {
    const overlayLayer: OverlayLayer?

    constructor (overlayLayer: OverlayLayer?)
      ensures this.overlayLayer == overlayLayer
    {
      this.overlayLayer := overlayLayer;
    }
  }

  /** A `Panel` hosting controls; its size and styling are not modelled. */
  class Panel {
    var children: seq<object>

    constructor ()
      ensures children == []
    {
      children := [];
    }
  }

  /**
   * What `(IBaseView?)Activator.CreateInstance(viewType)` yields for a view type: a new view
   * (a `Control` or not), null, or an exception.
   */
  datatype Activation = Instance(isControl: bool) | NullInstance | Throws(error: Exception)
}
