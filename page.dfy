/** The page-level state the handlers share (script.js:54-92, 257-424,
    485-605, 905-920): the mobile menu's open flag and classes, the body's
    scroll lock, and the product and tip modals. */
module Page {
  import Catalog

  class PageState {
    /** Whether #mobile-menu and #nav-menu are in the markup. */
    const hasMenu: bool
    /** Whether #product-modal and #modal-body are in the markup. */
    const hasProductModal: bool
    const hasProductBody: bool
    /** Whether #tip-modal and #tip-modal-body are in the markup. */
    const hasTipModal: bool
    const hasTipBody: bool

    /** The global mobileMenuOpen. */
    var mobileMenuOpen: bool
    /** The "is-active" class of the menu button and the "active" class of
        the navigation menu. */
    var menuButtonActive: bool
    var navMenuActive: bool
    /** document.body.style.overflow is 'hidden' (true) or '' (false). */
    var scrollLocked: bool
    /** The "show" class of each modal, and the key whose record was last
        rendered into its body. */
    var productModalShown: bool
    var productShown: string
    var tipModalShown: bool
    var tipShown: string

    /** The menu's classes agree with its flag. */
    ghost predicate MenuInSync()
      reads this
    {
      menuButtonActive == mobileMenuOpen && navMenuActive == mobileMenuOpen
    }

    /** The page as loaded: menu closed, nothing shown, scrolling free. */
    constructor (hasMenu: bool, hasProductModal: bool, hasProductBody: bool,
                 hasTipModal: bool, hasTipBody: bool)
      ensures this.hasMenu == hasMenu && this.hasProductModal == hasProductModal
      ensures this.hasProductBody == hasProductBody
      ensures this.hasTipModal == hasTipModal && this.hasTipBody == hasTipBody
      ensures !mobileMenuOpen && MenuInSync() && !scrollLocked
      ensures !productModalShown && !tipModalShown
    {
      this.hasMenu := hasMenu;
      this.hasProductModal := hasProductModal;
      this.hasProductBody := hasProductBody;
      this.hasTipModal := hasTipModal;
      this.hasTipBody := hasTipBody;
      mobileMenuOpen, menuButtonActive, navMenuActive := false, false, false;
      scrollLocked := false;
      productModalShown, productShown := false, "";
      tipModalShown, tipShown := false, "";
    }

    /** toggleMobileMenu: flip the flag and both classes, and lock scrolling
        exactly when the menu is now open. Without the menu markup nothing
        happens. */
    method ToggleMobileMenu()
      modifies this
      ensures !hasMenu ==> unchanged(this)
      ensures hasMenu ==> mobileMenuOpen == !old(mobileMenuOpen)
      ensures hasMenu ==> menuButtonActive == !old(menuButtonActive) && navMenuActive == !old(navMenuActive)
      ensures hasMenu ==> (scrollLocked <==> mobileMenuOpen)
      ensures productModalShown == old(productModalShown) && tipModalShown == old(tipModalShown)
      ensures productShown == old(productShown) && tipShown == old(tipShown)
      ensures old(MenuInSync()) ==> MenuInSync()
    {
      if hasMenu {
        mobileMenuOpen := !mobileMenuOpen;
        menuButtonActive := !menuButtonActive;
        navMenuActive := !navMenuActive;
        scrollLocked := mobileMenuOpen;
      }
    }

    /** A click on a navigation link closes an open menu (script.js:64-68). */
    method ClickNavLink()
      modifies this
      ensures !(hasMenu && old(mobileMenuOpen)) ==> unchanged(this)
      ensures hasMenu ==> !mobileMenuOpen
      ensures hasMenu && old(mobileMenuOpen) ==> !scrollLocked
      ensures hasMenu && old(mobileMenuOpen) ==>
        menuButtonActive == !old(menuButtonActive) && navMenuActive == !old(navMenuActive)
      ensures productModalShown == old(productModalShown) && productShown == old(productShown)
      ensures tipModalShown == old(tipModalShown) && tipShown == old(tipShown)
      ensures old(MenuInSync()) ==> MenuInSync()
    {
      if hasMenu && mobileMenuOpen {
        ToggleMobileMenu();
      }
    }

    /** A click anywhere in the document closes an open menu unless it lands
        inside the menu or on its button (script.js:72-76). */
    method ClickDocument(insideMenu: bool)
      modifies this
      ensures !(hasMenu && old(mobileMenuOpen) && !insideMenu) ==> unchanged(this)
      ensures hasMenu && !insideMenu ==> !mobileMenuOpen
      ensures hasMenu && old(mobileMenuOpen) && !insideMenu ==>
        !scrollLocked && menuButtonActive == !old(menuButtonActive) && navMenuActive == !old(navMenuActive)
      ensures productModalShown == old(productModalShown) && productShown == old(productShown)
      ensures tipModalShown == old(tipModalShown) && tipShown == old(tipShown)
      ensures old(MenuInSync()) ==> MenuInSync()
    {
      if hasMenu && mobileMenuOpen && !insideMenu {
        ToggleMobileMenu();
      }
    }

    /** openProductModal: only a key of the product table renders the record,
        shows the modal and locks scrolling; any other key changes nothing. */
    method OpenProductModal(key: string)
      modifies this
      ensures !(hasProductModal && hasProductBody && key in Catalog.ProductKeys) ==> unchanged(this)
      ensures hasProductModal && hasProductBody && key in Catalog.ProductKeys ==>
        productModalShown && productShown == key && scrollLocked
      ensures mobileMenuOpen == old(mobileMenuOpen)
      ensures menuButtonActive == old(menuButtonActive) && navMenuActive == old(navMenuActive)
      ensures tipModalShown == old(tipModalShown) && tipShown == old(tipShown)
      ensures old(MenuInSync()) ==> MenuInSync()
    {
      if !hasProductModal || !hasProductBody {
        return;
      }
      if Catalog.OpenByOwnKey(Catalog.ProductKeys, key) == Catalog.NoOp {
        return;
      }
      productShown := key;
      productModalShown := true;
      scrollLocked := true;
    }

    /** closeProductModal: hide the modal and release scrolling, whatever the
        menu's state. */
    method CloseProductModal()
      modifies this
      ensures !hasProductModal ==> unchanged(this)
      ensures hasProductModal ==> !productModalShown && !scrollLocked
      ensures mobileMenuOpen == old(mobileMenuOpen)
      ensures menuButtonActive == old(menuButtonActive) && navMenuActive == old(navMenuActive)
      ensures tipModalShown == old(tipModalShown) && tipShown == old(tipShown)
      ensures productShown == old(productShown)
      ensures old(MenuInSync()) ==> MenuInSync()
    {
      if hasProductModal {
        productModalShown := false;
        scrollLocked := false;
      }
    }

    /** showTipDetail: only a key of the tip table renders the tip, shows the
        modal and locks scrolling; any other key changes nothing. */
    method ShowTipDetail(key: string)
      modifies this
      ensures !(hasTipModal && hasTipBody && key in Catalog.TipKeys) ==> unchanged(this)
      ensures hasTipModal && hasTipBody && key in Catalog.TipKeys ==>
        tipModalShown && tipShown == key && scrollLocked
      ensures mobileMenuOpen == old(mobileMenuOpen)
      ensures menuButtonActive == old(menuButtonActive) && navMenuActive == old(navMenuActive)
      ensures productModalShown == old(productModalShown) && productShown == old(productShown)
      ensures old(MenuInSync()) ==> MenuInSync()
    {
      if !hasTipModal || !hasTipBody {
        return;
      }
      if Catalog.OpenByOwnKey(Catalog.TipKeys, key) == Catalog.NoOp {
        return;
      }
      tipShown := key;
      tipModalShown := true;
      scrollLocked := true;
    }

    /** closeTipModal: hide the modal and release scrolling. */
    method CloseTipModal()
      modifies this
      ensures !hasTipModal ==> unchanged(this)
      ensures hasTipModal ==> !tipModalShown && !scrollLocked
      ensures mobileMenuOpen == old(mobileMenuOpen)
      ensures menuButtonActive == old(menuButtonActive) && navMenuActive == old(navMenuActive)
      ensures productModalShown == old(productModalShown) && productShown == old(productShown)
      ensures tipShown == old(tipShown)
      ensures old(MenuInSync()) ==> MenuInSync()
    {
      if hasTipModal {
        tipModalShown := false;
        scrollLocked := false;
      }
    }

    /** Both modals close together, and scrolling is released even though the
        menu may still be open. */
    method CloseModals()
      modifies this
      ensures hasProductModal ==> !productModalShown
      ensures hasTipModal ==> !tipModalShown
      ensures hasProductModal || hasTipModal ==> !scrollLocked
      ensures !hasProductModal && !hasTipModal ==> unchanged(this)
      ensures !hasProductModal ==> productModalShown == old(productModalShown)
      ensures !hasTipModal ==> tipModalShown == old(tipModalShown)
      ensures mobileMenuOpen == old(mobileMenuOpen)
      ensures menuButtonActive == old(menuButtonActive) && navMenuActive == old(navMenuActive)
      ensures productShown == old(productShown) && tipShown == old(tipShown)
      ensures old(MenuInSync()) ==> MenuInSync()
    {
      CloseProductModal();
      CloseTipModal();
    }

    /** The document's keydown handler: Escape closes both modals; any other
        key changes nothing. Each close acts only when its modal is in the
        markup, so with neither modal present Escape leaves the page as it
        was, scroll lock included. */
    method KeyDown(key: string)
      modifies this
      ensures key != "Escape" ==> unchanged(this)
      ensures key == "Escape" && hasProductModal ==> !productModalShown
      ensures key == "Escape" && hasTipModal ==> !tipModalShown
      ensures key == "Escape" && (hasProductModal || hasTipModal) ==> !scrollLocked
      ensures !hasProductModal ==> productModalShown == old(productModalShown)
      ensures !hasTipModal ==> tipModalShown == old(tipModalShown)
      ensures !hasProductModal && !hasTipModal ==> unchanged(this)
      ensures mobileMenuOpen == old(mobileMenuOpen)
      ensures menuButtonActive == old(menuButtonActive) && navMenuActive == old(navMenuActive)
      ensures productShown == old(productShown) && tipShown == old(tipShown)
      ensures old(MenuInSync()) ==> MenuInSync()
    {
      if key == "Escape" {
        CloseModals();
      }
    }

    /** The window's click handler: a click on a modal's backdrop closes both
        modals, each only when it is in the markup. */
    method ClickWindow(onModalBackdrop: bool)
      modifies this
      ensures !onModalBackdrop ==> unchanged(this)
      ensures onModalBackdrop && hasProductModal ==> !productModalShown
      ensures onModalBackdrop && hasTipModal ==> !tipModalShown
      ensures onModalBackdrop && (hasProductModal || hasTipModal) ==> !scrollLocked
      ensures !hasProductModal ==> productModalShown == old(productModalShown)
      ensures !hasTipModal ==> tipModalShown == old(tipModalShown)
      ensures !hasProductModal && !hasTipModal ==> unchanged(this)
      ensures mobileMenuOpen == old(mobileMenuOpen)
      ensures menuButtonActive == old(menuButtonActive) && navMenuActive == old(navMenuActive)
      ensures productShown == old(productShown) && tipShown == old(tipShown)
      ensures old(MenuInSync()) ==> MenuInSync()
    {
      if onModalBackdrop {
        CloseModals();
      }
    }
  }

  /** Opening the mobile menu and then pressing Escape leaves the menu open
      but scrolling unlocked: the Escape handler releases the lock whether or
      not a modal was shown. */
  method EscapeWithMenuOpen() returns (menuOpen: bool, locked: bool)
    ensures menuOpen && !locked
  {
    var page := new PageState(true, true, true, true, true);
    page.ToggleMobileMenu();
    page.KeyDown("Escape");
    menuOpen, locked := page.mobileMenuOpen, page.scrollLocked;
  }

  /** An unknown product or tip key leaves a freshly loaded page as it was:
      no modal shown and scrolling free. */
  method UnknownKeyIsIgnored(key: string) returns (productOpen: bool, tipOpen: bool, locked: bool)
    ensures key !in Catalog.ProductKeys && key !in Catalog.TipKeys ==> !productOpen && !tipOpen && !locked
    ensures key in Catalog.ProductKeys ==> productOpen && locked
  {
    var page := new PageState(true, true, true, true, true);
    page.OpenProductModal(key);
    page.ShowTipDetail(key);
    productOpen, tipOpen, locked := page.productModalShown, page.tipModalShown, page.scrollLocked;
  }
}
