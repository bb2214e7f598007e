/** The global listener that raises a notice when a task is created for the
    signed-in user's team. */
module TaskNotification {
  import opened Common

  /** The new row image of an insert event, as far as the listener reads it. */
  datatype InsertedTask = InsertedTask(id: string, title: string, team_id: Option<string>)

  /** The user's profile row; the row itself may be missing. */
  datatype ProfileRow = ProfileRow(team_id: Option<string>)

  /** `data?.team_id || null`: the profile's team, or null when the profile,
      its team or the team's text is missing. A cached team is never empty. */
  function ResolveTeam(profile: Option<ProfileRow>): (team: Option<string>)
    ensures team.Some? <==> profile.Some? && profile.value.team_id.Some? && profile.value.team_id.value != ""
    ensures team.Some? ==> team == profile.value.team_id
  {
    if profile.Some? && profile.value.team_id.Some? && profile.value.team_id.value != "" then
      profile.value.team_id
    else None
  }

  /** `newTask.team_id && newTask.team_id === userTeamId`: the task has a
      non-empty team and it is the given cached team. A task without a team,
      with an empty team or with another team never notifies, and neither
      does any task when no team is cached. */
  function ShouldNotify(task: InsertedTask, userTeamId: Option<string>): (b: bool)
    ensures task.team_id.None? || task.team_id == Some("") ==> !b
    ensures task.team_id != userTeamId ==> !b
    ensures userTeamId.None? ==> !b
    ensures task.team_id.Some? && task.team_id.value != "" && task.team_id == userTeamId ==> b
  {
    task.team_id.Some? && task.team_id.value != "" && task.team_id == userTeamId
  }

  /** A user whose profile gives no team is never notified, and otherwise
      exactly the tasks of the profile's team notify. */
  lemma NotifyIffProfileTeam(task: InsertedTask, profile: Option<ProfileRow>)
    ensures ResolveTeam(profile).None? ==> !ShouldNotify(task, ResolveTeam(profile))
    ensures ShouldNotify(task, ResolveTeam(profile)) <==>
              profile.Some? && profile.value.team_id.Some? && profile.value.team_id.value != ""
              && task.team_id == profile.value.team_id
  {
  }

  /** The listener's component state: the cached team, whether an insert
      channel is open, the cached team its callback captured when it was
      opened, how many profile lookups were issued, and the notices shown. */
  class TaskNotificationListener {
    var userTeamId: Option<string>
    var subscribed: bool
    var channelTeam: Option<string>
    var profileFetches: nat
    var toasts: seq<Toast>

    constructor ()
      ensures userTeamId == None && !subscribed && channelTeam == None
      ensures profileFetches == 0 && toasts == []
    {
      userTeamId := None;
      subscribed := false;
      channelTeam := None;
      profileFetches := 0;
      toasts := [];
    }

    /** One run of the effect, as on mount or after `user` or `userTeamId`
        changed. The previous run's cleanup removes its channel first. With
        no user nothing is then fetched or subscribed; otherwise the profile
        lookup is issued and a channel is opened whose callback sees the
        cached team of this run. The cached team itself is kept until the
        lookup answers. */
    method RunEffect(userId: Option<string>)
      modifies this
      ensures userId.None? ==> !subscribed && channelTeam == old(channelTeam)
                               && profileFetches == old(profileFetches)
      ensures userId.Some? ==> subscribed && channelTeam == old(userTeamId)
                               && profileFetches == old(profileFetches) + 1
      ensures userTeamId == old(userTeamId) && toasts == old(toasts)
    {
      subscribed := false;
      if userId.None? {
        return;
      }
      profileFetches := profileFetches + 1;
      subscribed := true;
      channelTeam := userTeamId;
    }

    /** `fetchUserTeam`'s answer: cache the profile's team. The open channel
        keeps the team it captured until the effect runs again. */
    method ReceiveProfile(profile: Option<ProfileRow>)
      modifies this`userTeamId
      ensures userTeamId == ResolveTeam(profile)
    {
      userTeamId := ResolveTeam(profile);
    }

    /** An insert event: on an open channel, a task of the team its callback
        captured raises exactly one notice carrying its title; any other
        event raises none. */
    method OnInsert(task: InsertedTask)
      modifies this`toasts
      ensures toasts == old(toasts) + if subscribed && ShouldNotify(task, channelTeam)
                                      then [TaskAssigned(task.title)] else []
    {
      if subscribed && ShouldNotify(task, channelTeam) {
        toasts := toasts + [TaskAssigned(task.title)];
      }
    }
  }

  /** A session of the listener. A user signs in and the profile lookup
      answers; an insert arriving before the effect has re-run is checked
      against the team the first channel captured, which is none. The effect
      re-runs when the cached team changed, and an insert then notifies
      exactly when it belongs to the profile's team. After sign-out the
      channel is gone and the same insert raises nothing. */
  method Session(userId: string, profile: Option<ProfileRow>, task: InsertedTask)
    returns (beforeRerun: seq<Toast>, signedIn: seq<Toast>, signedOut: seq<Toast>)
    ensures beforeRerun == []
    ensures signedIn == if ShouldNotify(task, ResolveTeam(profile)) then [TaskAssigned(task.title)] else []
    ensures signedOut == signedIn
  {
    var listener := new TaskNotificationListener();
    listener.RunEffect(Some(userId));
    listener.ReceiveProfile(profile);
    listener.OnInsert(task);
    beforeRerun := listener.toasts;
    if listener.userTeamId != listener.channelTeam {
      listener.RunEffect(Some(userId));
    }
    listener.OnInsert(task);
    signedIn := listener.toasts;
    listener.RunEffect(None);
    listener.OnInsert(task);
    signedOut := listener.toasts;
  }
}
