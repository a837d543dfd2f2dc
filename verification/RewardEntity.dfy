/** What the `invite_reward` table says about the state of a reward. */
module RewardEntity {

  datatype RewardStatus = Created | Submitted | Completed | Failed | DeadLettered
}
