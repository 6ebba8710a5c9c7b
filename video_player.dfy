/**
 * One slide of the feed: a `<video>` element with a mute toggle and a
 * loading spinner (client/src/components/VideoPlayer.tsx).
 *
 * The component's state (`isMuted`, `isLoading`) and the DOM element it
 * drives are objects whose fields are updated in place. Media playback
 * itself is not modelled; the element records the last playback request.
 */
module VideoPlayer {
  import opened Types

  /** The last playback call made on the element. */
  datatype Request = NoRequest | PlayRequested | PauseRequested

  /** The `<video>` element behind `videoRef`. */
  class MediaElement {
    const src: string
    /** Every element is rendered with `preload="auto"`, whatever the feed asks for. */
    const preload: string
    var muted: bool
    var request: Request

    constructor (src: string, muted: bool)
      ensures this.src == src && this.muted == muted
      ensures request == NoRequest && preload == "auto"
    {
      this.src := src;
      this.muted := muted;
      this.preload := "auto";
      this.request := NoRequest;
    }
  }

  class Player {
    /** The props: only `video` and `isActive` are declared. */
    const video: Video
    var isActive: bool
    var isMuted: bool
    var isLoading: bool
    /** `videoRef.current`: null until React attaches the element. */
    var element: MediaElement?

    /** The element's `muted` follows `isMuted` once attached. */
    ghost predicate Valid()
      reads this, element
    {
      element != null ==> element.muted == isMuted && element.src == video.url
    }

    /** A player starts muted and loading, with no element attached yet. */
    constructor (video: Video, isActive: bool)
      ensures Valid()
      ensures this.video == video && this.isActive == isActive
      ensures isMuted && isLoading && element == null
    {
      this.video := video;
      this.isActive := isActive;
      isMuted := true;
      isLoading := true;
      element := null;
    }

    /**
     * The effect on `[isActive]`: play when active, pause otherwise. A
     * rejected `play()` is only logged, so the request stands either way.
     */
    method PlaybackEffect()
      requires Valid()
      modifies element
      ensures Valid()
      ensures element != null ==> element.request == (if isActive then PlayRequested else PauseRequested)
      ensures element != null ==> element.muted == old(element.muted)
    {
      if element == null {
        return;
      }
      if isActive {
        element.request := PlayRequested;
      } else {
        element.request := PauseRequested;
      }
    }

    /** React renders the `<video>` with `muted={isMuted}` and sets the ref; then the effect runs. */
    method AttachElement()
      requires Valid() && element == null
      modifies this
      ensures Valid() && fresh(element)
      ensures element.muted == isMuted && element.preload == "auto"
      ensures element.request == (if isActive then PlayRequested else PauseRequested)
      ensures isMuted == old(isMuted) && isLoading == old(isLoading) && isActive == old(isActive)
    {
      element := new MediaElement(video.url, isMuted);
      PlaybackEffect();
    }

    /** The feed re-renders the slide with a new `isActive`; the effect runs only when it changed. */
    method SetActive(active: bool)
      requires Valid()
      modifies this, element
      ensures Valid() && element == old(element) && isActive == active
      ensures isMuted == old(isMuted) && isLoading == old(isLoading)
      ensures element != null && active != old(isActive) ==>
        element.request == (if active then PlayRequested else PauseRequested)
      ensures element != null && active == old(isActive) ==> element.request == old(element.request)
      ensures element != null ==> element.muted == old(element.muted)
    {
      if active != isActive {
        isActive := active;
        PlaybackEffect();
      }
    }

    /** `toggleMute`: flips `isMuted` and the element's `muted` together; without an element it does nothing. */
    method ToggleMute()
      requires Valid()
      modifies this, element
      ensures Valid() && element == old(element)
      ensures old(element) == null ==> isMuted == old(isMuted)
      ensures old(element) != null ==> isMuted == !old(isMuted) && element.muted == isMuted
      ensures element != null ==> element.request == old(element.request)
      ensures isLoading == old(isLoading) && isActive == old(isActive)
    {
      if element != null {
        element.muted := !isMuted;
        isMuted := !isMuted;
      }
    }

    /** `onLoadedData`: the spinner goes away; nothing ever sets `isLoading` back. */
    method OnLoadedData()
      requires Valid()
      modifies this
      ensures Valid() && !isLoading
      ensures isMuted == old(isMuted) && isActive == old(isActive) && element == old(element)
    {
      isLoading := false;
    }
  }

  /** Toggling twice restores the mute state of the player and of its element. */
  method ToggleTwice(p: Player)
    requires p.Valid() && p.element != null
    modifies p, p.element
    ensures p.Valid() && p.element == old(p.element)
    ensures p.isMuted == old(p.isMuted) && p.element.muted == old(p.element.muted)
  {
    p.ToggleMute();
    p.ToggleMute();
  }

  /** Once loaded, a player stays loaded whatever happens next. */
  method LoadedStaysLoaded(p: Player, active: bool)
    requires p.Valid() && p.element != null
    modifies p, p.element
    ensures p.Valid() && !p.isLoading
  {
    p.OnLoadedData();
    p.ToggleMute();
    p.SetActive(active);
    p.ToggleMute();
  }
}
