/**
 * The `ui` store slice: the anchors of the devices menu and the user menu, each absent
 * while its menu is closed. Every reducer touches one anchor only.
 */
module UiSlice {
  import opened Wrappers

  class UiState {
    var devicesMenuAnchor: Option<string>
    var userMenuAnchor: Option<string>

    constructor ()
      ensures devicesMenuAnchor == None && userMenuAnchor == None
    {
      devicesMenuAnchor, userMenuAnchor := None, None;
    }

    method OpenDevicesMenu(anchor: string)
      modifies this
      ensures devicesMenuAnchor == Some(anchor) && userMenuAnchor == old(userMenuAnchor)
    {
      devicesMenuAnchor := Some(anchor);
    }

    method CloseDevicesMenu()
      modifies this
      ensures devicesMenuAnchor == None && userMenuAnchor == old(userMenuAnchor)
    {
      devicesMenuAnchor := None;
    }

    method OpenUserMenu(anchor: string)
      modifies this
      ensures userMenuAnchor == Some(anchor) && devicesMenuAnchor == old(devicesMenuAnchor)
    {
      userMenuAnchor := Some(anchor);
    }

    method CloseUserMenu()
      modifies this
      ensures userMenuAnchor == None && devicesMenuAnchor == old(devicesMenuAnchor)
    {
      userMenuAnchor := None;
    }
  }

  /** Opening a menu and closing it again leaves both anchors as they were before, when that menu was closed. */
  method OpenThenClose(ui: UiState, anchor: string)
    requires ui.devicesMenuAnchor == None
    modifies ui
    ensures ui.devicesMenuAnchor == old(ui.devicesMenuAnchor) && ui.userMenuAnchor == old(ui.userMenuAnchor)
  {
    ui.OpenDevicesMenu(anchor);
    ui.CloseDevicesMenu();
  }

  /**
   * Closing the devices menu a second time leaves the state the first close left:
   * that menu closed and the user menu as it was before either close.
   */
  method CloseTwice(ui: UiState)
    modifies ui
    ensures ui.devicesMenuAnchor == None && ui.userMenuAnchor == old(ui.userMenuAnchor)
  {
    ui.CloseDevicesMenu();
    ghost var once := (ui.devicesMenuAnchor, ui.userMenuAnchor);
    ui.CloseDevicesMenu();
    assert (ui.devicesMenuAnchor, ui.userMenuAnchor) == once;
  }
}
